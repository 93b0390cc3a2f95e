// The bytes of a page pack: a header, an index of fixed-size records and the payloads.
module PagePackCodec {
  import opened Wrappers
  import opened Objects
  import opened Encoding

  const RECORD: nat := 64
  const MAGIC: Bytes := [79, 84, 77, 80, 80, 71, 80, 75]
  const VERSION: Bytes := [0, 1, 0, 0, 0, 0, 0, 0]
  const U32_LIMIT: nat := 0x1_0000_0000

  datatype Header = Header(pageSize: nat, count: nat, indexOffset: nat, payloadOffset: nat)

  datatype Record = Record(page: nat, offset: nat, stored: nat, raw: nat, codec: PageCodec, sha: Bytes)

  datatype Index = Index(pageSize: nat, entries: seq<Record>)

  function Zeros(n: nat): (z: Bytes)
    ensures |z| == n
  {
    if n == 0 then [] else [0] + Zeros(n - 1)
  }

  // ----- Fields of fixed widths ---------------------------------------------------------------

  function Join(fields: seq<Bytes>): Bytes {
    if fields == [] then [] else fields[0] + Join(fields[1..])
  }

  function Total(widths: seq<nat>): nat {
    if widths == [] then 0 else widths[0] + Total(widths[1..])
  }

  function Cut(b: Bytes, widths: seq<nat>): (fields: seq<Bytes>)
    requires |b| == Total(widths)
    ensures |fields| == |widths| && forall i :: 0 <= i < |fields| ==> |fields[i]| == widths[i]
  {
    if widths == [] then [] else [b[..widths[0]]] + Cut(b[widths[0]..], widths[1..])
  }

  // Cutting undoes joining, and joining cutting.
  lemma {:induction false} CutJoin(fields: seq<Bytes>, widths: seq<nat>)
    requires |fields| == |widths| && forall i :: 0 <= i < |fields| ==> |fields[i]| == widths[i]
    ensures |Join(fields)| == Total(widths) && Cut(Join(fields), widths) == fields
    decreases |fields|
  {
    if fields != [] {
      CutJoin(fields[1..], widths[1..]);
      var b := Join(fields);
      assert b[..widths[0]] == fields[0] && b[widths[0]..] == Join(fields[1..]);
    }
  }

  lemma {:induction false} JoinCut(b: Bytes, widths: seq<nat>)
    requires |b| == Total(widths)
    ensures Join(Cut(b, widths)) == b
    decreases |widths|
  {
    if widths != [] {
      JoinCut(b[widths[0]..], widths[1..]);
      var fields := Cut(b, widths);
      assert fields[1..] == Cut(b[widths[0]..], widths[1..]);
    }
  }

  // ----- Fixed-size records -------------------------------------------------------------------

  // magic, version, page size, entry count, index offset, payload offset, reserved
  function HeaderWidths(): seq<nat> { [8, 8, 4, 4, 8, 8, 24] }

  // page number, offset, stored length, raw length, codec, reserved, digest
  function RecordWidths(): seq<nat> { [8, 8, 4, 4, 1, 7, 32] }

  lemma WidthsTotal()
    ensures Total(HeaderWidths()) == RECORD && Total(RecordWidths()) == RECORD
  {
    assert Total([24]) == 24 && Total([8, 24]) == 32 && Total([8, 8, 24]) == 40 && Total([4, 8, 8, 24]) == 44;
    assert Total([4, 4, 8, 8, 24]) == 48 && Total([8, 4, 4, 8, 8, 24]) == 56;
    assert Total([32]) == 32 && Total([7, 32]) == 39 && Total([1, 7, 32]) == 40 && Total([4, 1, 7, 32]) == 44;
    assert Total([4, 4, 1, 7, 32]) == 48 && Total([8, 4, 4, 1, 7, 32]) == 56;
  }

  function HeaderFields(h: Header): seq<Bytes> {
    [MAGIC, VERSION, ToBigEndian(h.pageSize, 4), ToBigEndian(h.count, 4), ToBigEndian(h.indexOffset, 8),
     ToBigEndian(h.payloadOffset, 8), Zeros(24)]
  }

  function HeaderBytes(h: Header): Bytes {
    Join(HeaderFields(h))
  }

  lemma HeaderSize(h: Header)
    ensures |HeaderBytes(h)| == RECORD
  {
    WidthsTotal();
    CutJoin(HeaderFields(h), HeaderWidths());
  }

  function CodecByte(c: PageCodec): byte { if c.Plain? then 0 else 1 }

  function RecordFields(r: Record): seq<Bytes> {
    [ToBigEndian(r.page, 8), ToBigEndian(r.offset, 8), ToBigEndian(r.stored, 4), ToBigEndian(r.raw, 4),
     [CodecByte(r.codec)], Zeros(7), r.sha]
  }

  function RecordBytes(r: Record): Bytes {
    Join(RecordFields(r))
  }

  lemma RecordSize(r: Record)
    requires |r.sha| == 32
    ensures |RecordBytes(r)| == RECORD
  {
    WidthsTotal();
    CutJoin(RecordFields(r), RecordWidths());
  }

  function HeaderAt(b: Bytes): Option<Header>
    requires |b| == RECORD
  {
    WidthsTotal();
    var f := Cut(b, HeaderWidths());
    if f[0] != MAGIC || f[1] != VERSION || f[6] != Zeros(24) then None
    else Some(Header(BigEndian(f[2]), BigEndian(f[3]), BigEndian(f[4]), BigEndian(f[5])))
  }

  function RecordAt(b: Bytes): Option<Record>
    requires |b| == RECORD
  {
    WidthsTotal();
    var f := Cut(b, RecordWidths());
    if f[4][0] > 1 || f[5] != Zeros(7) then None
    else Some(Record(BigEndian(f[0]), BigEndian(f[1]), BigEndian(f[2]), BigEndian(f[3]),
                     if f[4][0] == 0 then Plain else Zstd, f[6]))
  }

  predicate HeaderSized(h: Header) {
    h.pageSize < U32_LIMIT && h.count < U32_LIMIT && h.indexOffset <= U64_MAX && h.payloadOffset <= U64_MAX
  }

  predicate RecordSized(r: Record) {
    r.page <= U64_MAX && r.offset <= U64_MAX && r.stored < U32_LIMIT && r.raw < U32_LIMIT && |r.sha| == 32
  }

  lemma Widths()
    ensures Pow(256, 4) == U32_LIMIT && Pow(256, 8) == U64_MAX + 1
  {
    assert Pow(256, 2) == 256 * Pow(256, 1) == 256 * (256 * Pow(256, 0));
    assert Pow(256, 4) == 256 * Pow(256, 3) == 256 * (256 * Pow(256, 2));
    assert Pow(256, 6) == 256 * Pow(256, 5) == 256 * (256 * Pow(256, 4));
    assert Pow(256, 8) == 256 * Pow(256, 7) == 256 * (256 * Pow(256, 6));
  }

  // A field of `n` bytes and its value determine each other.
  lemma FieldExactly(b: Bytes, n: nat, value: nat)
    requires |b| == n
    ensures BigEndian(b) == value <==> value < Pow(256, n) && ToBigEndian(value, n) == b
  {
    ToBigEndianInverse(b);
    if value < Pow(256, n) {
      BigEndianInverse(value, n);
    }
  }

  // The bytes of a record and the record determine each other.
  lemma RecordExactly(b: Bytes, r: Record)
    requires |b| == RECORD
    ensures RecordAt(b) == Some(r) <==> RecordSized(r) && RecordBytes(r) == b
  {
    hide Pow, BigEndian, ToBigEndian, Zeros, Join, Cut, Total;
    Widths();
    WidthsTotal();
    var f := Cut(b, RecordWidths());
    JoinCut(b, RecordWidths());
    if |r.sha| == 32 {
      CutJoin(RecordFields(r), RecordWidths());
    }
    FieldExactly(f[0], 8, r.page);
    FieldExactly(f[1], 8, r.offset);
    FieldExactly(f[2], 4, r.stored);
    FieldExactly(f[3], 4, r.raw);
    if RecordAt(b) == Some(r) {
      assert f[4] == [CodecByte(r.codec)];
      assert f == RecordFields(r);
    }
  }

  lemma HeaderExactly(b: Bytes, h: Header)
    requires |b| == RECORD
    ensures HeaderAt(b) == Some(h) <==> HeaderSized(h) && HeaderBytes(h) == b
  {
    hide Pow, BigEndian, ToBigEndian, Zeros, Join, Cut, Total;
    Widths();
    WidthsTotal();
    var f := Cut(b, HeaderWidths());
    JoinCut(b, HeaderWidths());
    CutJoin(HeaderFields(h), HeaderWidths());
    FieldExactly(f[2], 4, h.pageSize);
    FieldExactly(f[3], 4, h.count);
    FieldExactly(f[4], 8, h.indexOffset);
    FieldExactly(f[5], 8, h.payloadOffset);
    if HeaderAt(b) == Some(h) {
      assert f == HeaderFields(h);
    }
  }

  // ----- Disjoint payloads ----------------------------------------------------------------------

  datatype Range = Range(from: nat, to: nat)

  predicate Apart(a: Range, b: Range) { a.to <= b.from || b.to <= a.from }

  predicate ApartFromAll(a: Range, rs: seq<Range>) { forall i :: 0 <= i < |rs| ==> Apart(a, rs[i]) }

  predicate AllApart(rs: seq<Range>) {
    rs == [] || (ApartFromAll(rs[0], rs[1..]) && AllApart(rs[1..]))
  }

  lemma {:induction false} AllApartMeans(rs: seq<Range>, i: nat, j: nat)
    requires AllApart(rs) && i < j < |rs|
    ensures Apart(rs[i], rs[j])
  {
    if i == 0 {
      assert rs[1..][j - 1] == rs[j];
    } else {
      AllApartMeans(rs[1..], i - 1, j - 1);
    }
  }

  predicate NotAfter(a: Range, b: Range) { a.from < b.from || (a.from == b.from && a.to <= b.to) }

  function Insert(r: Range, rs: seq<Range>): seq<Range> {
    if rs == [] then [r]
    else if NotAfter(r, rs[0]) then [r] + rs
    else [rs[0]] + Insert(r, rs[1..])
  }

  function Sort(rs: seq<Range>): seq<Range> {
    if rs == [] then [] else Insert(rs[0], Sort(rs[1..]))
  }

  predicate Ordered(rs: seq<Range>) { forall i :: 0 <= i < |rs| - 1 ==> NotAfter(rs[i], rs[i + 1]) }

  predicate NonEmpty(rs: seq<Range>) { forall i :: 0 <= i < |rs| ==> rs[i].from < rs[i].to }

  // The check on neighbours.
  predicate NeighboursApart(rs: seq<Range>) { forall i :: 0 <= i < |rs| - 1 ==> rs[i].to <= rs[i + 1].from }

  lemma {:induction false} InsertApart(r: Range, rs: seq<Range>, a: Range)
    ensures ApartFromAll(a, Insert(r, rs)) <==> Apart(a, r) && ApartFromAll(a, rs)
    ensures AllApart(Insert(r, rs)) <==> ApartFromAll(r, rs) && AllApart(rs)
    decreases |rs|
  {
    if rs == [] {
      assert Insert(r, rs) == [r] && [r][1..] == [] && [r] + [] == [r];
      Cons(a, r, []);
    } else if NotAfter(r, rs[0]) {
      assert ([r] + rs)[1..] == rs;
      assert ApartFromAll(a, [r] + rs) <==> Apart(a, r) && ApartFromAll(a, rs) by {
        Cons(a, r, rs);
      }
    } else {
      var rest := Insert(r, rs[1..]);
      assert Insert(r, rs) == [rs[0]] + rest && ([rs[0]] + rest)[1..] == rest;
      InsertApart(r, rs[1..], a);
      InsertApart(r, rs[1..], rs[0]);
      Cons(a, rs[0], rest);
      Cons(a, rs[0], rs[1..]);
      Cons(r, rs[0], rs[1..]);
      assert [rs[0]] + rs[1..] == rs;
    }
  }

  lemma Cons(a: Range, r: Range, rs: seq<Range>)
    ensures ApartFromAll(a, [r] + rs) <==> Apart(a, r) && ApartFromAll(a, rs)
  {
    var all := [r] + rs;
    if ApartFromAll(a, all) {
      assert all[0] == r;
      assert forall i :: 0 <= i < |rs| ==> all[i + 1] == rs[i];
    }
  }

  // Sorting changes nothing about who overlaps whom.
  lemma {:induction false} SortApart(rs: seq<Range>, a: Range)
    ensures AllApart(Sort(rs)) <==> AllApart(rs)
    ensures ApartFromAll(a, Sort(rs)) <==> ApartFromAll(a, rs)
    decreases |rs|
  {
    if rs != [] {
      SortApart(rs[1..], a);
      SortApart(rs[1..], rs[0]);
      InsertApart(rs[0], Sort(rs[1..]), a);
      Cons(a, rs[0], rs[1..]);
      assert [rs[0]] + rs[1..] == rs;
    }
  }

  lemma {:induction false} SortOrders(rs: seq<Range>)
    ensures Ordered(Sort(rs)) && (NonEmpty(rs) ==> NonEmpty(Sort(rs)))
    decreases |rs|
  {
    if rs != [] {
      SortOrders(rs[1..]);
      InsertOrders(rs[0], Sort(rs[1..]));
    }
  }

  lemma {:induction false} InsertOrders(r: Range, rs: seq<Range>)
    requires Ordered(rs)
    ensures Ordered(Insert(r, rs)) && (NonEmpty(rs) && r.from < r.to ==> NonEmpty(Insert(r, rs)))
    ensures Insert(r, rs) != [] && (Insert(r, rs)[0] == r || (rs != [] && Insert(r, rs)[0] == rs[0]))
    decreases |rs|
  {
    if rs != [] && !NotAfter(r, rs[0]) {
      InsertOrders(r, rs[1..]);
    }
  }

  // In order, looking at neighbours is enough.
  lemma {:induction false} NeighboursSuffice(rs: seq<Range>)
    requires Ordered(rs) && NonEmpty(rs)
    ensures AllApart(rs) <==> NeighboursApart(rs)
    decreases |rs|
  {
    if |rs| > 1 {
      var rest := rs[1..];
      NeighboursSuffice(rest);
      NeighboursStep(rs);
      Ascending(rs);
      if rs[0].to <= rs[1].from {
        Ascending(rest);
      }
      if ApartFromAll(rs[0], rest) {
        assert Apart(rs[0], rest[0]);
      }
    }
  }

  lemma NeighboursStep(rs: seq<Range>)
    requires |rs| > 1
    ensures NeighboursApart(rs) <==> rs[0].to <= rs[1].from && NeighboursApart(rs[1..])
  {
    var rest := rs[1..];
    assert forall i :: 0 <= i < |rest| ==> rest[i] == rs[i + 1];
    if rs[0].to <= rs[1].from && NeighboursApart(rest) {
      forall i | 0 <= i < |rs| - 1
        ensures rs[i].to <= rs[i + 1].from
      {
        if i > 0 {
          assert rest[i - 1].to <= rest[i - 1 + 1].from;
        }
      }
    }
  }

  lemma {:induction false} Ascending(rs: seq<Range>)
    requires Ordered(rs)
    ensures forall i :: 0 <= i < |rs| ==> rs[0].from <= rs[i].from
    decreases |rs|
  {
    if |rs| > 1 {
      var front := rs[..|rs| - 1];
      Ascending(front);
      assert forall i :: 0 <= i < |front| ==> front[i] == rs[i];
      assert NotAfter(rs[|rs| - 2], rs[|rs| - 2 + 1]);
    }
  }

  // The sorted check accepts exactly pairwise disjoint ranges.
  lemma SortedCheck(rs: seq<Range>)
    requires NonEmpty(rs)
    ensures NeighboursApart(Sort(rs)) <==> forall i, j :: 0 <= i < j < |rs| ==> Apart(rs[i], rs[j])
  {
    SortOrders(rs);
    NeighboursSuffice(Sort(rs));
    SortApart(rs, Range(0, 0));
    if AllApart(rs) {
      forall i, j | 0 <= i < j < |rs|
        ensures Apart(rs[i], rs[j])
      {
        AllApartMeans(rs, i, j);
      }
    }
    if forall i, j :: 0 <= i < j < |rs| ==> Apart(rs[i], rs[j]) {
      MeansAllApart(rs);
    }
  }

  lemma {:induction false} MeansAllApart(rs: seq<Range>)
    requires forall i, j :: 0 <= i < j < |rs| ==> Apart(rs[i], rs[j])
    ensures AllApart(rs)
    decreases |rs|
  {
    if rs != [] {
      assert forall i, j :: 0 <= i < j < |rs[1..]| ==> rs[1..][i] == rs[i + 1] && rs[1..][j] == rs[j + 1];
      MeansAllApart(rs[1..]);
    }
  }

  // ----- Accepted packs --------------------------------------------------------------------------

  predicate PowerPage(n: nat) { n in {512, 1024, 2048, 4096, 8192, 16384, 32768, 65536} }

  // The index lies between the header and the payloads, within the object.
  predicate HeaderValid(h: Header, full: nat) {
    && PowerPage(h.pageSize) && h.count != 0 && h.indexOffset >= RECORD
    && h.indexOffset + h.count * RECORD <= h.payloadOffset <= full
  }

  predicate EntryValid(h: Header, entries: seq<Record>, i: nat, full: nat)
    requires i < |entries|
  {
    var e := entries[i];
    && e.page > (if i == 0 then 0 else entries[i - 1].page) && e.raw == h.pageSize && e.stored != 0
    && h.payloadOffset <= e.offset && e.offset + e.stored <= full && (e.codec.Plain? ==> e.stored == e.raw)
  }

  function RangeOf(e: Record): Range { Range(e.offset, e.offset + e.stored) }

  predicate PayloadsApart(entries: seq<Record>) {
    forall i, j :: 0 <= i < j < |entries| ==> Apart(RangeOf(entries[i]), RangeOf(entries[j]))
  }

  predicate IndexValid(h: Header, entries: seq<Record>, full: nat) {
    && |entries| == h.count && (forall i :: 0 <= i < |entries| ==> RecordSized(entries[i]) && EntryValid(h, entries, i, full))
    && PayloadsApart(entries)
  }

  function IndexBytes(entries: seq<Record>): Bytes {
    if entries == [] then [] else IndexBytes(entries[..|entries| - 1]) + RecordBytes(entries[|entries| - 1])
  }

  // These bytes are the header and the index of a valid pack of so many bytes.
  ghost predicate Describes(h: Header, entries: seq<Record>, header: Bytes, index: Bytes, full: nat) {
    && HeaderSized(h) && HeaderValid(h, full) && IndexValid(h, entries, full)
    && header == HeaderBytes(h) && index == IndexBytes(entries)
  }

  // The parts of a pack: header, index and payloads.
  function Regions(h: Header, entries: seq<Record>): seq<Range> {
    [Range(0, RECORD), Range(h.indexOffset, h.indexOffset + h.count * RECORD)] + seq(|entries|, i requires 0 <= i < |entries| => RangeOf(entries[i]))
  }

  // No byte of a valid pack belongs to two of its parts, none lies outside, and no part is empty.
  lemma RegionsApart(h: Header, entries: seq<Record>, full: nat)
    requires HeaderValid(h, full) && IndexValid(h, entries, full)
    ensures forall i, j :: 0 <= i < j < |Regions(h, entries)| ==> Apart(Regions(h, entries)[i], Regions(h, entries)[j])
    ensures forall i :: 0 <= i < |Regions(h, entries)| ==> Regions(h, entries)[i].from < Regions(h, entries)[i].to <= full
  {
    hide RecordSized;
    forall i | 0 <= i < |entries|
      ensures h.payloadOffset <= RangeOf(entries[i]).from < RangeOf(entries[i]).to <= full
    {
      assert EntryValid(h, entries, i, full);
    }
  }

  method DecodeHeader(header: Bytes, full: nat) returns (r: Option<Header>)
    ensures r.Some? ==> HeaderSized(r.value) && HeaderValid(r.value, full) && HeaderBytes(r.value) == header
    ensures forall h :: HeaderSized(h) && HeaderValid(h, full) && HeaderBytes(h) == header ==> r == Some(h)
  {
    hide HeaderAt, HeaderBytes, HeaderSized;
    forall h
      ensures |HeaderBytes(h)| == RECORD
    {
      HeaderSize(h);
    }
    if |header| != RECORD {
      return None;
    }
    forall h
      ensures HeaderAt(header) == Some(h) <==> HeaderSized(h) && HeaderBytes(h) == header
    {
      HeaderExactly(header, h);
    }
    r := HeaderAt(header);
    if r.Some? && !HeaderValid(r.value, full) {
      r := None;
    }
  }

  predicate Digests(entries: seq<Record>) { forall k :: 0 <= k < |entries| ==> |entries[k].sha| == 32 }

  lemma {:induction false} IndexSize(entries: seq<Record>)
    requires Digests(entries)
    ensures |IndexBytes(entries)| == RECORD * |entries|
  {
    if entries != [] {
      IndexSize(entries[..|entries| - 1]);
      RecordSize(entries[|entries| - 1]);
    }
  }

  lemma {:induction false} IndexRecord(entries: seq<Record>, i: nat)
    requires i < |entries| && Digests(entries)
    ensures RECORD * (i + 1) <= |IndexBytes(entries)|
    ensures IndexBytes(entries)[RECORD * i..RECORD * (i + 1)] == RecordBytes(entries[i])
  {
    hide RecordBytes;
    var last := |entries| - 1;
    IndexSize(entries[..last]);
    IndexSize(entries);
    if i < last {
      var front := entries[..last];
      IndexRecord(front, i);
      assert IndexBytes(entries)[RECORD * i..RECORD * (i + 1)] == IndexBytes(front)[RECORD * i..RECORD * (i + 1)];
    }
  }

  lemma IndexSnoc(entries: seq<Record>, e: Record)
    ensures IndexBytes(entries + [e]) == IndexBytes(entries) + RecordBytes(e)
  {
    assert (entries + [e])[..|entries|] == entries;
  }

  // The index of a pack whose header has been read: what it holds is valid exactly when
  // it is accepted, and no two accepted payloads overlap.
  method DecodeIndexParts(header: Bytes, index: Bytes, full: nat) returns (r: Option<Index>)
    ensures r.Some? ==> exists h :: Describes(h, r.value.entries, header, index, full) && h.pageSize == r.value.pageSize
    ensures forall h, entries :: Describes(h, entries, header, index, full) ==> r == Some(Index(h.pageSize, entries))
  {
    hide HeaderSized, HeaderValid, HeaderBytes, IndexBytes, RecordSized, PayloadsApart, RecordBytes;
    var decoded := DecodeHeader(header, full);
    if decoded.None? {
      return None;
    }
    var h := decoded.value;
    var entries := ReadRecords(h, index, full);
    forall all | IndexValid(h, all, full) && IndexBytes(all) == index
      ensures entries == Some(all)
    {
      assert Spells(h, all, index, full);
    }
    if entries.None? {
      return None;
    }
    var ranges := seq(|entries.value|, i requires 0 <= i < |entries.value| => RangeOf(entries.value[i]));
    SortedCheck(ranges);
    RangesApart(entries.value, ranges);
    if !NeighboursApart(Sort(ranges)) {
      return None;
    }
    r := Some(Index(h.pageSize, entries.value));
    assert Describes(h, entries.value, header, index, full);
  }

  lemma RangesApart(entries: seq<Record>, ranges: seq<Range>)
    requires |ranges| == |entries| && forall i :: 0 <= i < |entries| ==> ranges[i] == RangeOf(entries[i])
    ensures PayloadsApart(entries) <==> forall i, j :: 0 <= i < j < |ranges| ==> Apart(ranges[i], ranges[j])
  {
  }

  // These entries are valid and spelled by these bytes.
  ghost predicate Spells(h: Header, entries: seq<Record>, index: Bytes, full: nat) {
    IndexValid(h, entries, full) && IndexBytes(entries) == index
  }

  predicate Checked(h: Header, entries: seq<Record>, full: nat) {
    forall i :: 0 <= i < |entries| ==> RecordSized(entries[i]) && EntryValid(h, entries, i, full)
  }

  // What the next record of a spelled index must be.
  lemma SpelledRecord(h: Header, all: seq<Record>, index: Bytes, full: nat, i: nat)
    requires Spells(h, all, index, full) && i < h.count
    ensures |all| == h.count && RECORD * (i + 1) <= |index| && RecordAt(index[RECORD * i..RECORD * (i + 1)]) == Some(all[i])
    ensures EntryValid(h, all, i, full)
  {
    assert Digests(all) by {
      forall k | 0 <= k < |all|
        ensures |all[k].sha| == 32
      {
        assert RecordSized(all[k]);
      }
    }
    IndexRecord(all, i);
    assert RecordSized(all[i]);
    hide RecordBytes, IndexBytes, RecordAt, RecordSized;
    RecordExactly(index[RECORD * i..RECORD * (i + 1)], all[i]);
  }

  lemma SpelledSize(h: Header, all: seq<Record>, index: Bytes, full: nat)
    requires Spells(h, all, index, full)
    ensures |index| == RECORD * h.count
  {
    assert Digests(all) by {
      forall k | 0 <= k < |all|
        ensures |all[k].sha| == 32
      {
        assert RecordSized(all[k]);
      }
    }
    IndexSize(all);
  }

  lemma NextSpelled(h: Header, entries: seq<Record>, all: seq<Record>, index: Bytes, full: nat)
    requires |entries| < h.count && |index| == RECORD * h.count && Spells(h, all, index, full) && entries <= all
    ensures |all| == h.count && RecordAt(index[RECORD * |entries|..RECORD * (|entries| + 1)]) == Some(all[|entries|])
    ensures EntryValid(h, entries + [all[|entries|]], |entries|, full)
  {
    hide RecordAt, Spells, EntryValid;
    var i := |entries|;
    SpelledRecord(h, all, index, full, i);
    assert all[..i + 1] == all[..i] + [all[i]];
    SameEntry(h, all, entries + [all[i]], i, full);
  }

  // One more record after those read.
  method ReadRecord(h: Header, entries: seq<Record>, index: Bytes, full: nat) returns (r: Option<Record>)
    requires |entries| < h.count && |index| == RECORD * h.count && Checked(h, entries, full)
    requires IndexBytes(entries) == index[..RECORD * |entries|]
    ensures r.Some? ==> Checked(h, entries + [r.value], full) && IndexBytes(entries + [r.value]) == index[..RECORD * (|entries| + 1)]
    ensures forall all :: Spells(h, all, index, full) && entries <= all ==> |all| == h.count && r == Some(all[|entries|])
  {
    hide RecordAt, IndexBytes, RecordBytes, RecordSized, Spells, EntryValid, Checked;
    var i := |entries|;
    var part := index[RECORD * i..RECORD * (i + 1)];
    r := RecordAt(part);
    forall all | Spells(h, all, index, full) && entries <= all
      ensures |all| == h.count && r == Some(all[i]) && EntryValid(h, entries + [all[i]], i, full)
    {
      NextSpelled(h, entries, all, index, full);
    }
    if r.None? {
      return;
    }
    if !EntryValid(h, entries + [r.value], i, full) {
      return None;
    }
    RecordExactly(part, r.value);
    NextValid(h, entries, r.value, full);
    IndexSnoc(entries, r.value);
    assert index[..RECORD * (i + 1)] == index[..RECORD * i] + part;
  }

  // The records of an index, each checked as it is read.
  method ReadRecords(h: Header, index: Bytes, full: nat) returns (r: Option<seq<Record>>)
    ensures r.Some? ==> |r.value| == h.count && index == IndexBytes(r.value) && Checked(h, r.value, full)
    ensures forall all :: Spells(h, all, index, full) ==> r == Some(all)
  {
    hide IndexBytes, Checked, Spells;
    forall all | Spells(h, all, index, full)
      ensures |index| == RECORD * h.count && |all| == h.count
    {
      SpelledSize(h, all, index, full);
      SpelledCount(h, all, index, full);
    }
    if |index| != RECORD * h.count {
      return None;
    }
    var entries: seq<Record> := [];
    NoRecords(h, full);
    assert index[..0] == [];
    for i := 0 to h.count
      invariant |entries| == i && IndexBytes(entries) == index[..RECORD * i] && Checked(h, entries, full)
      invariant forall all :: Spells(h, all, index, full) ==> |all| == h.count && all[..i] == entries
    {
      var e := ReadRecord(h, entries, index, full);
      if e.None? {
        return None;
      }
      forall all | Spells(h, all, index, full)
        ensures all[..i + 1] == entries + [e.value]
      {
        assert all[..i + 1] == all[..i] + [all[i]];
      }
      entries := entries + [e.value];
    }
    assert index[..RECORD * h.count] == index;
    forall all | Spells(h, all, index, full)
      ensures all == entries
    {
      assert all[..h.count] == all;
    }
    r := Some(entries);
  }

  lemma SpelledCount(h: Header, all: seq<Record>, index: Bytes, full: nat)
    requires Spells(h, all, index, full)
    ensures |all| == h.count
  {
  }

  lemma NoRecords(h: Header, full: nat)
    ensures IndexBytes([]) == [] && Checked(h, [], full)
  {
  }

  lemma SameEntry(h: Header, all: seq<Record>, some: seq<Record>, i: nat, full: nat)
    requires i < |all| && |some| == i + 1 && all[..i + 1] == some
    ensures EntryValid(h, all, i, full) <==> EntryValid(h, some, i, full)
  {
    assert all[i] == some[i] && (i > 0 ==> all[i - 1] == some[i - 1]);
  }

  lemma NextValid(h: Header, entries: seq<Record>, e: Record, full: nat)
    requires Checked(h, entries, full) && RecordSized(e) && EntryValid(h, entries + [e], |entries|, full)
    ensures Checked(h, entries + [e], full)
  {
    hide RecordSized;
    forall k | 0 <= k < |entries|
      ensures EntryValid(h, entries + [e], k, full)
    {
      assert EntryValid(h, entries, k, full);
    }
  }

  // The whole object: the index where the header says.
  method DecodePackIndex(bytes: Bytes) returns (r: Option<Index>)
    ensures r.Some? ==> exists h :: IsPack(h, r.value.entries, bytes) && h.pageSize == r.value.pageSize
    ensures forall h, entries :: IsPack(h, entries, bytes) ==> r == Some(Index(h.pageSize, entries))
  {
    hide HeaderSized, HeaderValid, IndexValid, HeaderBytes, IndexBytes;
    if |bytes| < RECORD {
      return None;
    }
    var header := DecodeHeader(bytes[..RECORD], |bytes|);
    if header.None? {
      return None;
    }
    HeaderBounds(header.value, |bytes|);
    var start, end := header.value.indexOffset, header.value.indexOffset + header.value.count * RECORD;
    r := DecodeIndexParts(bytes[..RECORD], bytes[start..end], |bytes|);
  }

  lemma HeaderBounds(h: Header, full: nat)
    requires HeaderValid(h, full)
    ensures h.indexOffset + h.count * RECORD <= full
  {
  }

  // A whole object with a valid header and a valid index where it says.
  ghost predicate IsPack(h: Header, entries: seq<Record>, bytes: Bytes) {
    && |bytes| >= RECORD && h.indexOffset + h.count * RECORD <= |bytes|
    && Describes(h, entries, bytes[..RECORD], bytes[h.indexOffset..h.indexOffset + h.count * RECORD], |bytes|)
  }

  // ----- Encoding ----------------------------------------------------------------------------------

  // The pages of a pack, a sorted map from page numbers.
  type Pages = seq<(nat, Bytes)>

  predicate Encodable(pageSize: nat, pages: Pages) {
    && PowerPage(pageSize) && 0 < |pages| < U32_LIMIT
    && (forall i :: 0 <= i < |pages| ==> 0 < pages[i].0 <= U64_MAX && |pages[i].1| == pageSize)
    && (forall i, j :: 0 <= i < j < |pages| ==> pages[i].0 < pages[j].0)
    && Start(pages) + |pages| * pageSize <= U64_MAX
  }

  // Where the payloads start.
  function Start(pages: Pages): nat { RECORD + RECORD * |pages| }

  function PackHeader(pageSize: nat, pages: Pages): Header {
    Header(pageSize, |pages|, RECORD, Start(pages))
  }

  function PackRecord(sha: Bytes -> Bytes, pageSize: nat, pages: Pages, i: nat): Record
    requires i < |pages|
  {
    Record(pages[i].0, Start(pages) + i * pageSize, pageSize, pageSize, Plain, sha(pages[i].1))
  }

  function PackRecords(sha: Bytes -> Bytes, pageSize: nat, pages: Pages): seq<Record> {
    seq(|pages|, i requires 0 <= i < |pages| => PackRecord(sha, pageSize, pages, i))
  }

  function Payload(pages: Pages): Bytes {
    if pages == [] then [] else Payload(pages[..|pages| - 1]) + pages[|pages| - 1].1
  }

  // The bytes of a pack.
  function PackBytes(sha: Bytes -> Bytes, pageSize: nat, pages: Pages): Bytes {
    HeaderBytes(PackHeader(pageSize, pages)) + IndexBytes(PackRecords(sha, pageSize, pages)) + Payload(pages)
  }

  lemma {:induction false} PayloadSplit(pages: Pages, i: nat) returns (after: Bytes)
    requires i < |pages|
    ensures Payload(pages) == Payload(pages[..i]) + pages[i].1 + after
  {
    var last := |pages| - 1;
    if i == last {
      after := [];
    } else {
      assert pages[..last][..i] == pages[..i];
      after := PayloadSplit(pages[..last], i);
      after := after + pages[last].1;
    }
  }

  lemma PayloadSlice(pageSize: nat, pages: Pages, i: nat)
    requires i < |pages| && forall k :: 0 <= k < |pages| ==> |pages[k].1| == pageSize
    ensures i * pageSize + pageSize <= |Payload(pages)|
    ensures Payload(pages)[i * pageSize..i * pageSize + pageSize] == pages[i].1
  {
    var after := PayloadSplit(pages, i);
    PayloadSize(pageSize, pages[..i]);
    Middle(Payload(pages[..i]), pages[i].1, after);
    hide *;
  }

  lemma Middle(a: Bytes, b: Bytes, c: Bytes)
    ensures (a + b + c)[|a|..|a| + |b|] == b
  {
  }

  lemma {:induction false} PayloadSize(pageSize: nat, pages: Pages)
    requires forall k :: 0 <= k < |pages| ==> |pages[k].1| == pageSize
    ensures |Payload(pages)| == |pages| * pageSize
  {
    if pages != [] {
      PayloadSize(pageSize, pages[..|pages| - 1]);
      assert |pages| * pageSize == (|pages| - 1) * pageSize + pageSize;
    }
  }

  lemma OneMore(i: nat, size: nat)
    ensures (i + 1) * size == i * size + size
  {
  }

  lemma Below(i: nat, j: nat, size: nat)
    requires i < j
    ensures i * size + size <= j * size
  {
    MulGrows(i + 1, j, size);
    OneMore(i, size);
  }

  lemma RecordIsValid(sha: Bytes -> Bytes, pageSize: nat, pages: Pages, i: nat)
    requires Encodable(pageSize, pages) && (forall b :: |sha(b)| == 32) && i < |pages|
    ensures RecordSized(PackRecords(sha, pageSize, pages)[i])
    ensures EntryValid(PackHeader(pageSize, pages), PackRecords(sha, pageSize, pages), i, Start(pages) + |pages| * pageSize)
  {
    Below(i, |pages|, pageSize);
    hide Start;
  }

  lemma RecordsApart(sha: Bytes -> Bytes, pageSize: nat, pages: Pages, i: nat, j: nat)
    requires i < j < |pages|
    ensures Apart(RangeOf(PackRecords(sha, pageSize, pages)[i]), RangeOf(PackRecords(sha, pageSize, pages)[j]))
  {
    Below(i, j, pageSize);
    hide Start;
  }

  lemma HeaderIsValid(pageSize: nat, pages: Pages)
    requires Encodable(pageSize, pages)
    ensures HeaderSized(PackHeader(pageSize, pages)) && HeaderValid(PackHeader(pageSize, pages), Start(pages) + |pages| * pageSize)
  {
  }

  // The encoded records are valid, and their payloads are the pages one after the other.
  lemma PackIsValid(sha: Bytes -> Bytes, pageSize: nat, pages: Pages)
    requires Encodable(pageSize, pages) && forall b :: |sha(b)| == 32
    ensures HeaderSized(PackHeader(pageSize, pages)) && HeaderValid(PackHeader(pageSize, pages), Start(pages) + |pages| * pageSize)
    ensures IndexValid(PackHeader(pageSize, pages), PackRecords(sha, pageSize, pages), Start(pages) + |pages| * pageSize)
  {
    HeaderIsValid(pageSize, pages);
    RecordCount(sha, pageSize, pages);
    hide Encodable, PackRecords, Start, RecordSized, EntryValid, Apart, RangeOf, HeaderSized, HeaderValid;
    var entries := PackRecords(sha, pageSize, pages);
    forall i | 0 <= i < |entries|
      ensures RecordSized(entries[i]) && EntryValid(PackHeader(pageSize, pages), entries, i, Start(pages) + |pages| * pageSize)
    {
      RecordIsValid(sha, pageSize, pages, i);
    }
    forall i, j | 0 <= i < j < |entries|
      ensures Apart(RangeOf(entries[i]), RangeOf(entries[j]))
    {
      RecordsApart(sha, pageSize, pages, i, j);
    }
  }

  lemma PackDigests(sha: Bytes -> Bytes, pageSize: nat, pages: Pages)
    requires forall b :: |sha(b)| == 32
    ensures Digests(PackRecords(sha, pageSize, pages))
  {
  }

  lemma PackLength(sha: Bytes -> Bytes, pageSize: nat, pages: Pages)
    requires Encodable(pageSize, pages) && forall b :: |sha(b)| == 32
    ensures var bytes := PackBytes(sha, pageSize, pages);
      && |bytes| == Start(pages) + |pages| * pageSize && bytes[..RECORD] == HeaderBytes(PackHeader(pageSize, pages))
      && bytes[RECORD..Start(pages)] == IndexBytes(PackRecords(sha, pageSize, pages)) && bytes[Start(pages)..] == Payload(pages)
  {
    HeaderSize(PackHeader(pageSize, pages));
    PackDigests(sha, pageSize, pages);
    IndexSize(PackRecords(sha, pageSize, pages));
    PayloadSize(pageSize, pages);
    hide HeaderBytes, IndexBytes, Payload, PackRecords, PackHeader, Encodable, Digests;
    ThreeParts(HeaderBytes(PackHeader(pageSize, pages)), IndexBytes(PackRecords(sha, pageSize, pages)), Payload(pages));
  }

  lemma ThreeParts(a: Bytes, b: Bytes, c: Bytes)
    ensures var all := a + b + c; all[..|a|] == a && all[|a|..|a| + |b|] == b && all[|a| + |b|..] == c && |all| == |a| + |b| + |c|
  {
  }

  // An encoded pack is decoded to its own records, ...
  lemma PackDecodes(sha: Bytes -> Bytes, pageSize: nat, pages: Pages)
    requires Encodable(pageSize, pages) && forall b :: |sha(b)| == 32
    ensures IsPack(PackHeader(pageSize, pages), PackRecords(sha, pageSize, pages), PackBytes(sha, pageSize, pages))
  {
    PackIsValid(sha, pageSize, pages);
    PackLength(sha, pageSize, pages);
    assert PackHeader(pageSize, pages).indexOffset == RECORD && PackHeader(pageSize, pages).count == |pages|;
    hide HeaderBytes, IndexBytes, HeaderSized, HeaderValid, IndexValid, Payload, Encodable, PackBytes, PackHeader, PackRecords;
  }

  // ... whose payloads are the encoded pages.
  lemma PackPayloads(sha: Bytes -> Bytes, pageSize: nat, pages: Pages, i: nat)
    requires Encodable(pageSize, pages) && (forall b :: |sha(b)| == 32) && i < |pages|
    ensures var e := PackRecords(sha, pageSize, pages)[i];
      && e.page == pages[i].0 && e.sha == sha(pages[i].1)
      && e.offset + e.stored <= |PackBytes(sha, pageSize, pages)|
      && PackBytes(sha, pageSize, pages)[e.offset..e.offset + e.stored] == pages[i].1
  {
    hide PackBytes, Payload, HeaderBytes, IndexBytes, PackRecords, PackHeader, Start, Encodable;
    PagesSized(pageSize, pages);
    PackLength(sha, pageSize, pages);
    PayloadSlice(pageSize, pages, i);
    RecordIs(sha, pageSize, pages, i);
    var at := i * pageSize;
    PageWithin(PackBytes(sha, pageSize, pages), Start(pages), Payload(pages), at, pageSize);
  }

  lemma RecordIs(sha: Bytes -> Bytes, pageSize: nat, pages: Pages, i: nat)
    requires i < |pages|
    ensures var e := PackRecords(sha, pageSize, pages)[i];
      e.page == pages[i].0 && e.sha == sha(pages[i].1) && e.offset == Start(pages) + i * pageSize && e.stored == pageSize
  {
  }

  lemma PageWithin(bytes: Bytes, start: nat, payload: Bytes, at: nat, size: nat)
    requires start <= |bytes| && bytes[start..] == payload && at + size <= |payload|
    ensures start + at + size <= |bytes| && bytes[start + at..start + at + size] == payload[at..at + size]
  {
    assert bytes[start + at..start + at + size] == bytes[start..][at..at + size];
  }

  // ----- Writing into a preallocated buffer ------------------------------------------------------

  function Splice(s: Bytes, at: nat, part: Bytes): Bytes
    requires at + |part| <= |s|
  {
    s[..at] + part + s[at + |part|..]
  }

  lemma SpliceStep(s: Bytes, at: nat, part: Bytes, i: nat)
    requires at + |part| <= |s| && i < |part|
    ensures |Splice(s, at, part[..i])| == |s|
    ensures Splice(s, at, part[..i])[at + i := part[i]] == Splice(s, at, part[..i + 1])
  {
  }

  method CopyInto(a: array<byte>, at: nat, part: Bytes)
    requires at + |part| <= a.Length
    modifies a
    ensures a[..] == Splice(old(a[..]), at, part)
  {
    assert Splice(a[..], at, part[..0]) == a[..];
    hide Splice;
    ghost var before := a[..];
    for i := 0 to |part|
      invariant a[..] == Splice(before, at, part[..i])
    {
      SpliceStep(before, at, part, i);
      ghost var was := a[..];
      a[at + i] := part[i];
      assert a[..] == was[at + i := part[i]];
    }
    assert part[..|part|] == part;
  }

  // The next part of a buffer that is filled from the front and again from the middle.
  lemma FillFront(front: Bytes, part: Bytes, gap: Bytes, back: Bytes)
    requires |part| <= |gap|
    ensures Splice(front + gap + back, |front|, part) == front + part + gap[|part|..] + back
  {
  }

  lemma FillBack(front: Bytes, part: Bytes, back: Bytes)
    requires |part| <= |back|
    ensures Splice(front + back, |front|, part) == front + part + back[|part|..]
  {
  }

  lemma ZerosCut(n: nat, k: nat)
    requires k <= n
    ensures Zeros(n)[k..] == Zeros(n - k)
  {
    if k > 0 {
      assert Zeros(n)[k..] == Zeros(n)[1..][k - 1..];
      ZerosCut(n - 1, k - 1);
    }
  }

  lemma ZerosAdd(m: nat, n: nat)
    ensures Zeros(m + n) == Zeros(m) + Zeros(n)
  {
    if m > 0 {
      ZerosAdd(m - 1, n);
    }
  }

  lemma {:induction false} AllZeros(b: Bytes)
    requires forall i :: 0 <= i < |b| ==> b[i] == 0
    ensures b == Zeros(|b|)
    decreases |b|
  {
    if b != [] {
      AllZeros(b[1..]);
    }
  }

  // The buffer after the first `i` pages: records from the front, payloads from where
  // they start, zeros elsewhere.
  function Filled(header: Bytes, records: seq<Record>, pages: Pages, i: nat, pageSize: nat): Bytes
    requires i <= |pages| == |records|
  {
    header + IndexBytes(records[..i]) + Zeros(RECORD * (|pages| - i)) + (Payload(pages[..i]) + Zeros((|pages| - i) * pageSize))
  }

  lemma FilledNone(header: Bytes, records: seq<Record>, pages: Pages, pageSize: nat)
    requires |pages| == |records| && |header| == RECORD
    ensures |Zeros(Start(pages) + |pages| * pageSize)| >= |header|
    ensures Splice(Zeros(Start(pages) + |pages| * pageSize), 0, header) == Filled(header, records, pages, 0, pageSize)
  {
    var n := |pages|;
    ZerosCut(Start(pages) + n * pageSize, RECORD);
    ZerosAdd(RECORD * n, n * pageSize);
    assert records[..0] == [] && pages[..0] == [];
    hide Zeros;
  }

  lemma FilledAll(header: Bytes, records: seq<Record>, pages: Pages, pageSize: nat)
    requires |pages| == |records|
    ensures Filled(header, records, pages, |pages|, pageSize) == header + IndexBytes(records) + Payload(pages)
  {
    assert records[..|pages|] == records && pages[..|pages|] == pages;
    assert Zeros(0) == [];
  }

  // Two parts of a buffer, filled one after the other.
  lemma FillTwice(front: Bytes, gap: Bytes, payload: Bytes, rest: Bytes, record: Bytes, page: Bytes)
    requires |record| <= |gap| && |page| <= |rest|
    ensures Splice(Splice(front + gap + (payload + rest), |front|, record), |front| + |gap| + |payload|, page)
         == (front + record) + gap[|record|..] + ((payload + page) + rest[|page|..])
  {
    FillFront(front, record, gap, payload + rest);
    var middle := front + record + gap[|record|..] + payload;
    assert front + record + gap[|record|..] + (payload + rest) == middle + rest;
    FillBack(middle, page, rest);
    hide Splice;
    assert middle + page + rest[|page|..] == (front + record) + gap[|record|..] + ((payload + page) + rest[|page|..]);
  }

  lemma FilledSizes(header: Bytes, records: seq<Record>, pages: Pages, i: nat, pageSize: nat)
    requires i < |pages| == |records| && |header| == RECORD && Digests(records)
    requires forall k :: 0 <= k < |pages| ==> |pages[k].1| == pageSize
    ensures |header + IndexBytes(records[..i])| == RECORD + RECORD * i && |Payload(pages[..i])| == i * pageSize
    ensures |RecordBytes(records[i])| == RECORD && |pages[i].1| == pageSize <= (|pages| - i) * pageSize
  {
    RecordSize(records[i]);
    IndexSize(records[..i]);
    PayloadSize(pageSize, pages[..i]);
    MulGrows(1, |pages| - i, pageSize);
    hide IndexBytes, RecordBytes, Payload;
  }

  lemma FilledNext(header: Bytes, records: seq<Record>, pages: Pages, i: nat, pageSize: nat)
    requires i < |pages| == |records|
    ensures Filled(header, records, pages, i + 1, pageSize)
         == (header + IndexBytes(records[..i]) + RecordBytes(records[i])) + Zeros(RECORD * (|pages| - i))[RECORD..]
            + ((Payload(pages[..i]) + pages[i].1) + Zeros((|pages| - (i + 1)) * pageSize))
  {
    ZerosCut(RECORD * (|pages| - i), RECORD);
    assert records[..i + 1] == records[..i] + [records[i]];
    IndexSnoc(records[..i], records[i]);
    PayloadSnoc(pages, i);
    hide IndexBytes, RecordBytes, Payload, Zeros;
    assert header + (IndexBytes(records[..i]) + RecordBytes(records[i])) == header + IndexBytes(records[..i]) + RecordBytes(records[i]);
  }

  lemma FilledStep(header: Bytes, records: seq<Record>, pages: Pages, i: nat, pageSize: nat, offset: nat)
    requires i < |pages| == |records| && |header| == RECORD && Digests(records) && offset == Start(pages) + i * pageSize
    requires forall k :: 0 <= k < |pages| ==> |pages[k].1| == pageSize
    ensures var before := Filled(header, records, pages, i, pageSize);
      && |RecordBytes(records[i])| == RECORD && RECORD + RECORD * i + RECORD <= |before| && offset + pageSize <= |before|
      && Splice(Splice(before, RECORD + RECORD * i, RecordBytes(records[i])), offset, pages[i].1)
         == Filled(header, records, pages, i + 1, pageSize)
  {
    hide IndexBytes, RecordBytes, Payload, Zeros, Splice, Digests;
    FilledSizes(header, records, pages, i, pageSize);
    FilledNext(header, records, pages, i, pageSize);
    RestSize(|pages|, i, pageSize);
    var left := (|pages| - i) * pageSize;
    ZerosCut(left, pageSize);
    FillTwice(header + IndexBytes(records[..i]), Zeros(RECORD * (|pages| - i)), Payload(pages[..i]), Zeros(left),
              RecordBytes(records[i]), pages[i].1);
  }

  lemma PayloadSnoc(pages: Pages, i: nat)
    requires i < |pages|
    ensures Payload(pages[..i + 1]) == Payload(pages[..i]) + pages[i].1
  {
    assert pages[..i + 1][..i] == pages[..i];
  }

  lemma RestSize(n: nat, i: nat, pageSize: nat)
    requires i < n
    ensures (n - i) * pageSize == (n - (i + 1)) * pageSize + pageSize && i * pageSize + (n - i) * pageSize == n * pageSize
  {
  }

  // One record and its page.
  method PutPage(bytes: array<byte>, ghost header: Bytes, records: seq<Record>, pages: Pages, i: nat, pageSize: nat, offset: nat)
    requires i < |pages| == |records| && |header| == RECORD && Digests(records) && offset == Start(pages) + i * pageSize
    requires forall k :: 0 <= k < |pages| ==> |pages[k].1| == pageSize
    requires bytes[..] == Filled(header, records, pages, i, pageSize)
    modifies bytes
    ensures bytes[..] == Filled(header, records, pages, i + 1, pageSize)
  {
    FilledStep(header, records, pages, i, pageSize, offset);
    hide Filled, RecordBytes, Splice, Start;
    CopyInto(bytes, RECORD + RECORD * i, RecordBytes(records[i]));
    CopyInto(bytes, offset, pages[i].1);
  }

  lemma PagesSized(pageSize: nat, pages: Pages)
    requires Encodable(pageSize, pages)
    ensures forall k :: 0 <= k < |pages| ==> |pages[k].1| == pageSize
  {
  }

  // encode_page_pack: header, records and pages copied into one buffer of the final size.
  method EncodePagePack(sha: Bytes -> Bytes, pageSize: nat, pages: Pages) returns (r: Option<Bytes>)
    requires forall b :: |sha(b)| == 32
    ensures r.Some? <==> Encodable(pageSize, pages)
    ensures r.Some? ==> r.value == PackBytes(sha, pageSize, pages)
  {
    hide *;
    if !Encodable(pageSize, pages) {
      return None;
    }
    PagesSized(pageSize, pages);
    var header := HeaderBytes(PackHeader(pageSize, pages));
    HeaderSize(PackHeader(pageSize, pages));
    var records := PackRecords(sha, pageSize, pages);
    RecordCount(sha, pageSize, pages);
    PackDigests(sha, pageSize, pages);
    FilledNone(header, records, pages, pageSize);
    var bytes := new byte[Start(pages) + |pages| * pageSize](i => 0);
    AllZeros(bytes[..]);
    CopyInto(bytes, 0, header);
    for i := 0 to |pages|
      invariant bytes[..] == Filled(header, records, pages, i, pageSize)
    {
      PutPage(bytes, header, records, pages, i, pageSize, Start(pages) + i * pageSize);
    }
    FilledAll(header, records, pages, pageSize);
    PackParts(sha, pageSize, pages);
    r := Some(bytes[..]);
  }

  lemma PackParts(sha: Bytes -> Bytes, pageSize: nat, pages: Pages)
    ensures PackBytes(sha, pageSize, pages)
         == HeaderBytes(PackHeader(pageSize, pages)) + IndexBytes(PackRecords(sha, pageSize, pages)) + Payload(pages)
  {
  }

  lemma RecordCount(sha: Bytes -> Bytes, pageSize: nat, pages: Pages)
    ensures |PackRecords(sha, pageSize, pages)| == |pages|
  {
  }
}
