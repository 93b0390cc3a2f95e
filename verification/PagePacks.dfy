// Page packs as objects: writing changed pages into packs, and the checked read
// of one mapped page back out of its pack.
module PagePacks {
  import opened Wrappers
  import opened Objects

  const PACK_TARGET: nat := 1024 * 1024
  const PACK_CAPACITY: nat := (PACK_TARGET - 64) / (64 + PAGE)

  datatype PageWrite = PageWrite(page: nat, bytes: Bytes)

  predicate SortedWrites(ws: seq<PageWrite>) {
    forall i, j :: 0 <= i < j < |ws| ==> ws[i].page < ws[j].page
  }

  predicate WholePages(ws: seq<PageWrite>) {
    forall i :: 0 <= i < |ws| ==> ws[i].page > 0 && |ws[i].bytes| == PAGE
  }

  function Payload(ws: seq<PageWrite>): Bytes {
    if ws == [] then [] else ws[0].bytes + Payload(ws[1..])
  }

  function PayloadOffset(count: nat): pos {
    64 + 64 * count
  }

  // encode_page_pack: an index of `count` entries, then the pages one after the other.
  function EncodePack(env: Env, ws: seq<PageWrite>): Pack {
    Pack(PAGE, PayloadOffset(|ws|),
         seq(|ws|, i requires 0 <= i < |ws| =>
           PackEntry(ws[i].page, PayloadOffset(|ws|) + i * PAGE, PAGE, PAGE, Plain, env.pageDigest(ws[i].bytes))),
         Payload(ws))
  }

  // What decode_pack_index demands of an accepted pack.
  predicate ValidPack(p: Pack) {
    && PowerOfTwoPage(p.pageSize)
    && p.entries != []
    && (forall i :: 0 <= i < |p.entries| ==> ValidPackEntry(p, p.entries[i]))
    && (forall i, j :: 0 <= i < j < |p.entries| ==> p.entries[i].page < p.entries[j].page)
    && (forall i, j :: 0 <= i < |p.entries| && 0 <= j < |p.entries| && i != j ==> Disjoint(p.entries[i], p.entries[j]))
  }

  predicate ValidPackEntry(p: Pack, e: PackEntry) {
    && e.page > 0
    && e.rawLength == p.pageSize
    && e.storedLength > 0
    && p.payloadOffset <= e.offset
    && e.offset + e.storedLength <= p.payloadOffset + |p.payload|
    && (e.codec == Plain ==> e.storedLength == e.rawLength)
  }

  predicate Disjoint(a: PackEntry, b: PackEntry) {
    a.offset + a.storedLength <= b.offset || b.offset + b.storedLength <= a.offset
  }

  // The map entries that point into a pack.
  function Mappings(env: Env, p: Pack): (s: seq<Entry>)
    ensures |s| == |p.entries|
  {
    seq(|p.entries|, i requires 0 <= i < |p.entries| => MappingOf(env, p, p.entries[i]))
  }

  function MappingOf(env: Env, p: Pack, e: PackEntry): Entry {
    Entry(e.page, RefOf(env, PackObject(p)), e.offset, e.storedLength, e.rawLength, e.codec, e.pageSha)
  }

  // One pack: its mappings and the object to publish.
  function WritePack(env: Env, chunk: seq<PageWrite>): (seq<Entry>, Store) {
    var o := PackObject(EncodePack(env, chunk));
    (Mappings(env, o.pack), map[NameOf(env, o) := o])
  }

  function ChunkSize(ws: seq<PageWrite>): (n: nat)
    ensures n <= |ws| && (ws != [] ==> n > 0)
  {
    if |ws| < PACK_CAPACITY then |ws| else PACK_CAPACITY
  }

  // The pages in packs of at most PACK_CAPACITY, with the mappings and the pack objects.
  function WritePacks(env: Env, ws: seq<PageWrite>, eof: nat): Result<(seq<Entry>, Store)>
    decreases |ws|
  {
    if ws == [] then Ok(([], map[]))
    else
      var chunk := ws[..ChunkSize(ws)];
      if exists i :: 0 <= i < |chunk| && chunk[i].page > eof then Err(Corrupt)
      else if !WholePages(chunk) then Err(Invalid)
      else
        var (mappings, packs) :- WritePacks(env, ws[ChunkSize(ws)..], eof);
        Ok((WritePack(env, chunk).0 + mappings, WritePack(env, chunk).1 + packs))
  }

  // Binary search of the pack index by page number.
  function Find(entries: seq<PackEntry>, page: nat): Option<PackEntry> {
    if entries == [] then None
    else if entries[0].page == page then Some(entries[0])
    else Find(entries[1..], page)
  }

  lemma {:induction false} FindAt(entries: seq<PackEntry>, i: nat)
    requires i < |entries| && forall a, b :: 0 <= a < b < |entries| ==> entries[a].page < entries[b].page
    ensures Find(entries, entries[i].page) == Some(entries[i])
  {
    if i > 0 {
      FindAt(entries[1..], i - 1);
    }
  }

  // Reading one mapped page: the pack is verified, its index must agree with the
  // map in every field, and the decoded page must have the declared digest.
  function ReadPage(env: Env, store: Store, pageSize: nat, e: Entry): Result<Bytes> {
    if e.rawLength != pageSize then Err(Corrupt)
    else
      var o :- VerifiedRead(env, store, e.pack);
      if !o.PackObject? || !ValidPack(o.pack) || o.pack.pageSize != pageSize then Err(Corrupt)
      else
        match Find(o.pack.entries, e.page)
        case None => Err(Corrupt)
        case Some(indexed) =>
          if MappingOf(env, o.pack, indexed).(pack := e.pack) != e then Err(Corrupt)
          else
            var page :- Decode(env, o.pack, e, pageSize);
            if |page| != pageSize || env.pageDigest(page) != e.pageSha then Err(Corrupt)
            else Ok(page)
  }

  function Decode(env: Env, p: Pack, e: Entry, pageSize: nat): Result<Bytes> {
    if e.offset < p.payloadOffset || e.offset + e.storedLength > p.payloadOffset + |p.payload| then Err(Corrupt)
    else
      var stored := p.payload[e.offset - p.payloadOffset..e.offset - p.payloadOffset + e.storedLength];
      match e.codec
      case Plain => Ok(stored)
      case Zstd => match env.inflate(stored, pageSize) case Some(page) => Ok(page) case None => Err(Corrupt)
  }

  // A page that has been read stays readable in every larger store, and two
  // mappings into one pack name agree on the pack's reference.
  lemma ReadPageMonotone(env: Env, small: Store, big: Store, pageSize: nat, e: Entry)
    requires Extends(small, big) && ReadPage(env, small, pageSize, e).Ok?
    ensures ReadPage(env, big, pageSize, e) == ReadPage(env, small, pageSize, e)
  {
  }

  lemma {:induction false} PayloadAt(ws: seq<PageWrite>, i: nat)
    requires WholePages(ws) && i < |ws|
    ensures |Payload(ws)| == |ws| * PAGE
    ensures Payload(ws)[i * PAGE..i * PAGE + PAGE] == ws[i].bytes
  {
    PayloadLength(ws);
    PayloadLength(ws[1..]);
    if i == 0 {
      assert (ws[0].bytes + Payload(ws[1..]))[0..PAGE] == ws[0].bytes;
    } else {
      PayloadAt(ws[1..], i - 1);
      SliceShift(ws[0].bytes, Payload(ws[1..]), (i - 1) * PAGE, (i - 1) * PAGE + PAGE);
      assert PAGE + (i - 1) * PAGE == i * PAGE;
    }
  }

  lemma SliceShift(a: Bytes, b: Bytes, lo: nat, hi: nat)
    requires lo <= hi <= |b|
    ensures (a + b)[|a| + lo..|a| + hi] == b[lo..hi]
  {
  }

  lemma {:induction false} PayloadLength(ws: seq<PageWrite>)
    requires WholePages(ws)
    ensures |Payload(ws)| == |ws| * PAGE
  {
    if ws != [] {
      PayloadLength(ws[1..]);
    }
  }

  lemma EncodePackValid(env: Env, ws: seq<PageWrite>)
    requires ws != [] && WholePages(ws) && SortedWrites(ws)
    ensures ValidPack(EncodePack(env, ws))
  {
    var p := EncodePack(env, ws);
    PayloadLength(ws);
    forall i | 0 <= i < |ws|
      ensures ValidPackEntry(p, p.entries[i])
    {
      assert (i + 1) * PAGE <= |ws| * PAGE;
    }
    forall i, j | 0 <= i < |ws| && 0 <= j < |ws| && i != j
      ensures Disjoint(p.entries[i], p.entries[j])
    {
      if i < j {
        assert (i + 1) * PAGE <= j * PAGE;
      } else {
        assert (j + 1) * PAGE <= i * PAGE;
      }
    }
  }

  // What was written is read back: every page of a pack, wherever the pack is stored.
  lemma PackRoundTrip(env: Env, ws: seq<PageWrite>, store: Store, i: nat)
    requires ws != [] && WholePages(ws) && SortedWrites(ws) && i < |ws|
    requires var o := PackObject(EncodePack(env, ws)); Holds(env, store, RefOf(env, o), o)
    ensures var e := Mappings(env, EncodePack(env, ws))[i];
      e.page == ws[i].page && ReadPage(env, store, PAGE, e) == Ok(ws[i].bytes)
  {
    var p := EncodePack(env, ws);
    EncodePackValid(env, ws);
    FindAt(p.entries, i);
    PayloadAt(ws, i);
    assert (i + 1) * PAGE <= |ws| * PAGE;
  }

  // A compressed page is read back too: where the pack's index and the map agree on it and
  // the stored bytes inflate to a page with the declared digest.
  lemma CompressedReadBack(env: Env, store: Store, p: Pack, i: nat, page: Bytes)
    requires ValidPack(p) && i < |p.entries| && p.entries[i].codec == Zstd && |page| == p.pageSize
    requires Holds(env, store, RefOf(env, PackObject(p)), PackObject(p))
    requires var e := p.entries[i];
      && env.inflate(p.payload[e.offset - p.payloadOffset..e.offset - p.payloadOffset + e.storedLength], p.pageSize) == Some(page)
      && e.pageSha == env.pageDigest(page)
    ensures ReadPage(env, store, p.pageSize, Mappings(env, p)[i]) == Ok(page)
  {
    FindAt(p.entries, i);
    assert ValidPackEntry(p, p.entries[i]);
  }

  // And whatever is read has the length and the digest that the map declares.
  lemma ReadPageSound(env: Env, store: Store, pageSize: nat, e: Entry)
    requires ReadPage(env, store, pageSize, e).Ok?
    ensures var page := ReadPage(env, store, pageSize, e).value;
      |page| == pageSize == e.rawLength && env.pageDigest(page) == e.pageSha
  {
  }

  lemma MappingValid(env: Env, p: Pack, i: nat)
    requires ValidPack(p) && i < |p.entries|
    ensures ValidEntry(Mappings(env, p)[i])
  {
    assert ValidPackEntry(p, p.entries[i]);
  }

  // Mappings and packs that stand for the writes `ws`: one valid entry per page in
  // the same order, within eof, each located in a content-addressed pack.
  predicate Standing(env: Env, s: seq<Entry>, packs: Store, ws: seq<PageWrite>, eof: nat) {
    && |s| == |ws|
    && ContentAddressed(env, packs)
    && forall i :: 0 <= i < |s| ==>
         s[i].page == ws[i].page <= eof && ValidEntry(s[i]) && Located(env, packs, s[i])
  }

  // The entry's pack is among the packs under the entry's reference.
  predicate Located(env: Env, packs: Store, e: Entry) {
    e.pack.uri in packs && packs[e.pack.uri].PackObject? && e.pack == RefOf(env, packs[e.pack.uri])
  }

  lemma StandingSorted(env: Env, s: seq<Entry>, packs: Store, ws: seq<PageWrite>, eof: nat)
    requires Standing(env, s, packs, ws, eof) && SortedWrites(ws)
    ensures SortedEntries(s) && ValidEntries(s)
  {
  }

  lemma WritePackStanding(env: Env, chunk: seq<PageWrite>, eof: nat)
    requires chunk != [] && WholePages(chunk) && SortedWrites(chunk)
    requires forall i :: 0 <= i < |chunk| ==> chunk[i].page <= eof
    ensures Standing(env, WritePack(env, chunk).0, WritePack(env, chunk).1, chunk, eof)
  {
    var (s, packs) := WritePack(env, chunk);
    EncodePackValid(env, chunk);
    forall i | 0 <= i < |s|
      ensures s[i].page == chunk[i].page <= eof && ValidEntry(s[i]) && Located(env, packs, s[i])
    {
      MappingValid(env, EncodePack(env, chunk), i);
    }
  }

  lemma StandingJoin(
    env: Env, s1: seq<Entry>, p1: Store, w1: seq<PageWrite>, s2: seq<Entry>, p2: Store, w2: seq<PageWrite>, eof: nat)
    requires CollisionFree(env) && Standing(env, s1, p1, w1, eof) && Standing(env, s2, p2, w2, eof)
    ensures Standing(env, s1 + s2, p1 + p2, w1 + w2, eof)
    ensures Extends(p1, p1 + p2) && Extends(p2, p1 + p2)
  {
    hide ValidEntry;
    ContentAddressedAgree(env, p1, p2);
    var s, ws, packs := s1 + s2, w1 + w2, p1 + p2;
    forall i | 0 <= i < |s|
      ensures s[i].page == ws[i].page <= eof && ValidEntry(s[i]) && Located(env, packs, s[i])
    {
      if i < |s1| {
        assert s[i] == s1[i] && ws[i] == w1[i];
      } else {
        assert s[i] == s2[i - |s1|] && ws[i] == w2[i - |s1|];
      }
    }
  }

  // The first pack of a successful write, then the others.
  lemma WritePacksStep(env: Env, ws: seq<PageWrite>, eof: nat)
    requires ws != [] && SortedWrites(ws) && WritePacks(env, ws, eof).Ok?
    ensures var n := ChunkSize(ws);
      var (chunk, rest) := (ws[..n], ws[n..]);
      && ws == chunk + rest && chunk != [] && WholePages(chunk) && SortedWrites(chunk) && SortedWrites(rest)
      && (forall i :: 0 <= i < |chunk| ==> chunk[i].page <= eof)
      && WritePacks(env, rest, eof).Ok?
      && WritePacks(env, ws, eof).value ==
           (WritePack(env, chunk).0 + WritePacks(env, rest, eof).value.0,
            WritePack(env, chunk).1 + WritePacks(env, rest, eof).value.1)
  {
    hide WritePack, WholePages;
  }

  lemma {:induction false} WritePacksStanding(env: Env, ws: seq<PageWrite>, eof: nat)
    requires CollisionFree(env) && SortedWrites(ws) && WritePacks(env, ws, eof).Ok?
    ensures var (s, packs) := WritePacks(env, ws, eof).value; Standing(env, s, packs, ws, eof)
    decreases |ws|
  {
    if ws != [] {
      hide Standing, WritePack, WritePacks, SortedWrites, WholePages;
      WritePacksStep(env, ws, eof);
      var n := ChunkSize(ws);
      WritePackStanding(env, ws[..n], eof);
      WritePacksStanding(env, ws[n..], eof);
      StandingJoin(env, WritePack(env, ws[..n]).0, WritePack(env, ws[..n]).1, ws[..n],
                   WritePacks(env, ws[n..], eof).value.0, WritePacks(env, ws[n..], eof).value.1, ws[n..], eof);
    }
  }

  // Every store that holds the packs gives back every page written.
  lemma {:induction false} WritePacksReadBack(env: Env, ws: seq<PageWrite>, eof: nat, store: Store, i: nat)
    requires CollisionFree(env) && SortedWrites(ws) && WritePacks(env, ws, eof).Ok? && i < |ws|
    requires Extends(WritePacks(env, ws, eof).value.1, store)
    ensures |WritePacks(env, ws, eof).value.0| == |ws|
    ensures ReadPage(env, store, PAGE, WritePacks(env, ws, eof).value.0[i]) == Ok(ws[i].bytes)
    decreases |ws|
  {
    hide WritePacks, SortedWrites, WholePages, ReadPage, ValidEntry, CollisionFree, ContentAddressed, Located;
    WritePacksStep(env, ws, eof);
    var n := ChunkSize(ws);
    WritePackStanding(env, ws[..n], eof);
    WritePacksStanding(env, ws[n..], eof);
    StandingJoin(env, WritePack(env, ws[..n]).0, WritePack(env, ws[..n]).1, ws[..n],
                 WritePacks(env, ws[n..], eof).value.0, WritePacks(env, ws[n..], eof).value.1, ws[n..], eof);
    if i < n {
      PackRoundTrip(env, ws[..n], store, i);
    } else {
      WritePacksReadBack(env, ws[n..], eof, store, i - n);
    }
  }

  // No pack is written that holds no mapped page.
  lemma {:induction false} WritePacksUsed(env: Env, ws: seq<PageWrite>, eof: nat, u: Uri)
    requires SortedWrites(ws) && WritePacks(env, ws, eof).Ok? && u in WritePacks(env, ws, eof).value.1
    ensures exists e :: e in WritePacks(env, ws, eof).value.0 && e.pack.uri == u
    decreases |ws|
  {
    hide WritePacks, SortedWrites, WholePages;
    if ws == [] {
      NoPacks(env, ws, eof);
    } else {
      WritePacksStep(env, ws, eof);
      var n := ChunkSize(ws);
      if u in WritePack(env, ws[..n]).1 {
        assert WritePack(env, ws[..n]).0[0].pack.uri == u;
        assert WritePack(env, ws[..n]).0[0] in WritePacks(env, ws, eof).value.0;
      } else {
        WritePacksUsed(env, ws[n..], eof, u);
      }
    }
  }

  lemma NoPacks(env: Env, ws: seq<PageWrite>, eof: nat)
    requires ws == []
    ensures WritePacks(env, ws, eof) == Ok(([], map[]))
  {
  }
}
