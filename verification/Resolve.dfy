// Resolving a generation to bytes: the checkpoint, overlaid by the mapped pages.
module Resolve {
  import opened Wrappers
  import opened Objects
  import opened PageMapTree
  import opened PageMapView
  import opened PageMapReader
  import opened PagePacks
  import opened CheckpointIndex

  datatype MapRoot = MapRoot(reference: Reference, height: nat)

  datatype Generation = Generation(
    pageSize: nat, pageCount: nat, checkpoint: Reference,
    pageMap: Option<MapRoot>, index: Option<PageIndex>)

  function Min(a: nat, b: nat): nat {
    if a < b then a else b
  }

  // How many entries lie beyond the checkpoint's last page.
  function Extended(s: seq<Entry>, basePages: nat): nat {
    if s == [] then 0 else (if s[0].page > basePages then 1 else 0) + Extended(s[1..], basePages)
  }

  predicate PagesReadable(env: Env, store: Store, pageSize: nat, s: seq<Entry>) {
    forall i :: 0 <= i < |s| ==> ReadPage(env, store, pageSize, s[i]).Ok?
  }

  predicate Bounded(s: seq<Entry>, pageCount: nat) {
    forall i :: 0 <= i < |s| ==> 0 < s[i].page <= pageCount
  }

  // The mapped pages that an entry run supplies, by page number.
  function Contents(env: Env, store: Store, pageSize: nat, s: seq<Entry>): (m: map<nat, Bytes>)
    requires PagesReadable(env, store, pageSize, s)
    ensures forall p :: p in m ==> |m[p]| == pageSize
  {
    if s == [] then map[]
    else
      var last := |s| - 1;
      Contents(env, store, pageSize, s[..last])[s[last].page := ReadPage(env, store, pageSize, s[last]).value]
  }

  // One byte of the assembled image: from its mapped page, else from the checkpoint, else zero.
  function ImageByte(pageSize: pos, base: Bytes, pages: map<nat, Bytes>, k: nat): byte
    requires forall p :: p in pages ==> |pages[p]| == pageSize
  {
    if k / pageSize + 1 in pages then pages[k / pageSize + 1][k % pageSize]
    else if k < |base| then base[k] else 0
  }

  function Assemble(pageSize: pos, base: Bytes, pages: map<nat, Bytes>, length: nat): (bytes: Bytes)
    requires forall p :: p in pages ==> |pages[p]| == pageSize
    ensures |bytes| == length
    ensures forall k :: 0 <= k < length ==> bytes[k] == ImageByte(pageSize, base, pages, k)
  {
    seq(length, k requires 0 <= k < length => ImageByte(pageSize, base, pages, k))
  }

  // The tree a generation's page map loads as.
  function LoadMap(env: Env, store: Store, gen: Generation): (r: Result<Option<Tree>>)
    ensures r.Ok? && r.value.Some? ==> WellFormed(r.value.value) && r.value.value.max <= gen.pageCount
  {
    if gen.pageMap.None? then Ok(None)
    else
      var root := gen.pageMap.value;
      var loaded :- LoadTree(env, store, root.reference, root.height, 0, gen.pageCount, {});
      LoadSound(env, store, root.reference, root.height, 0, gen.pageCount, {});
      Ok(Some(loaded.0))
  }

  // The entries of that tree, in page order.
  function MapEntries(tree: Option<Tree>, ghost pageCount: nat): (s: seq<Entry>)
    requires tree.Some? ==> WellFormed(tree.value) && tree.value.max <= pageCount
    ensures SortedEntries(s) && Bounded(s, pageCount)
  {
    if tree.Some? then
      FlattenSorted(tree.value);
      TreeBounds(tree.value);
      Flatten(tree.value)
    else []
  }

  // The checks on a generation's checkpoint and geometry; the checkpoint's bytes.
  function ReadBase(env: Env, store: Store, gen: Generation): (r: Result<Bytes>)
    ensures r.Ok? ==> gen.pageSize > 0 && |r.value| % gen.pageSize == 0
  {
    var o :- VerifiedRead(env, store, gen.checkpoint);
    if !o.CheckpointObject? || !PowerOfTwoPage(gen.pageSize) then Err(Corrupt)
    else if |o.bytes| < gen.pageSize || |o.bytes| % gen.pageSize != 0 then Err(Corrupt)
    else if gen.index.Some? && !Verifies(env, store, gen.index.value, gen.checkpoint, gen.pageSize, o.bytes) then Err(Corrupt)
    else if gen.pageCount == 0 || gen.pageCount * gen.pageSize > U64_MAX then Err(Corrupt)
    else if gen.pageMap.None? && gen.pageCount * gen.pageSize != |o.bytes| then Err(Corrupt)
    else Ok(o.bytes)
  }

  // resolve_generation
  function ResolveBytes(env: Env, store: Store, gen: Generation): Result<Bytes> {
    hide ReadBase, LoadMap, MapEntries, Supplied, PagesReadable, Contents, WellFormed, SortedEntries, Bounded;
    var base :- ReadBase(env, store, gen);
    var tree :- LoadMap(env, store, gen);
    var s := MapEntries(tree, gen.pageCount);
    if !Supplied(s, |base| / gen.pageSize, gen.pageCount) || !PagesReadable(env, store, gen.pageSize, s) then Err(Corrupt)
    else Ok(Assemble(gen.pageSize, base, Contents(env, store, gen.pageSize, s), gen.pageCount * gen.pageSize))
  }

  // As many entries beyond the checkpoint as the image has pages beyond it.
  predicate Supplied(s: seq<Entry>, basePages: nat, pageCount: nat) {
    Extended(s, basePages) == if pageCount > basePages then pageCount - basePages else 0
  }

  // The in-place assembly: the checkpoint's prefix, then page after page.
  method AssembleInPlace(env: Env, store: Store, pageSize: pos, base: Bytes, s: seq<Entry>, pageCount: nat)
    returns (r: Result<Bytes>)
    requires SortedEntries(s) && Bounded(s, pageCount)
    ensures r == if PagesReadable(env, store, pageSize, s)
                 then Ok(Assemble(pageSize, base, Contents(env, store, pageSize, s), pageCount * pageSize))
                 else Err(Corrupt)
  {
    hide ReadPage, SortedEntries;
    var length := pageCount * pageSize;
    var buffer := new byte[length](_ => 0);
    var copied := Min(length, |base|);
    forall k | 0 <= k < copied {
      buffer[k] := base[k];
    }
    var i := 0;
    ghost var pages: map<nat, Bytes> := map[];
    assert s[..0] == [];
    while i < |s|
      invariant 0 <= i <= |s|
      invariant PagesReadable(env, store, pageSize, s[..i])
      invariant pages == Contents(env, store, pageSize, s[..i])
      invariant Shows(buffer[..], pageSize, base, pages)
    {
      hide Contents, Shows, Assemble;
      var page := ReadPage(env, store, pageSize, s[i]);
      if page.Err? {
        return Err(Corrupt);
      }
      ReadLength(env, store, pageSize, s[i]);
      ContentsAppend(env, store, pageSize, s, i);
      PageInside(s[i].page, pageCount, pageSize);
      WritePage(buffer, pageSize, s[i].page, page.value, base, pages);
      pages := pages[s[i].page := page.value];
      i := i + 1;
    }
    assert s[..i] == s;
    r := Ok(buffer[..]);
    assert r.value == Assemble(pageSize, base, pages, length);
  }

  // The buffer holds the image of the given pages over the base.
  ghost predicate Shows(buffer: Bytes, pageSize: pos, base: Bytes, pages: map<nat, Bytes>) {
    && (forall p :: p in pages ==> |pages[p]| == pageSize)
    && forall k :: 0 <= k < |buffer| ==> buffer[k] == ImageByte(pageSize, base, pages, k)
  }

  // Copies one page into the buffer.
  method WritePage(buffer: array<byte>, pageSize: pos, number: nat, page: Bytes, ghost base: Bytes, ghost pages: map<nat, Bytes>)
    requires number > 0 && |page| == pageSize && (number - 1) * pageSize + pageSize <= buffer.Length
    requires Shows(buffer[..], pageSize, base, pages)
    modifies buffer
    ensures Shows(buffer[..], pageSize, base, pages[number := page])
  {
    var start := (number - 1) * pageSize;
    forall k | 0 <= k < pageSize {
      buffer[start + k] := page[k];
    }
    forall k | 0 <= k < buffer.Length
      ensures buffer[k] == ImageByte(pageSize, base, pages[number := page], k)
    {
      PositionPage(k, number, pageSize);
      if start <= k < start + pageSize {
        assert buffer[start + (k - start)] == page[k - start];
      } else {
        assert buffer[k] == old(buffer[..])[k];
      }
    }
  }

  lemma ReadLength(env: Env, store: Store, pageSize: nat, e: Entry)
    requires ReadPage(env, store, pageSize, e).Ok?
    ensures |ReadPage(env, store, pageSize, e).value| == pageSize
  {
  }

  lemma ContentsAppend(env: Env, store: Store, pageSize: nat, s: seq<Entry>, i: nat)
    requires i < |s| && PagesReadable(env, store, pageSize, s[..i])
    requires ReadPage(env, store, pageSize, s[i]).Ok?
    ensures PagesReadable(env, store, pageSize, s[..i + 1])
    ensures Contents(env, store, pageSize, s[..i + 1])
         == Contents(env, store, pageSize, s[..i])[s[i].page := ReadPage(env, store, pageSize, s[i]).value]
  {
    hide ReadPage;
    assert s[..i + 1] == s[..i] + [s[i]];
    assert s[..i + 1][..i] == s[..i];
  }

  lemma PageInside(page: nat, pageCount: nat, pageSize: pos)
    requires 0 < page <= pageCount
    ensures (page - 1) * pageSize + pageSize <= pageCount * pageSize
  {
    MulGrows(page, pageCount, pageSize);
  }

  // Position k lies in page p exactly when it lies in p's range.
  lemma PositionPage(k: nat, page: nat, pageSize: pos)
    requires page > 0
    ensures k / pageSize + 1 == page <==> (page - 1) * pageSize <= k < (page - 1) * pageSize + pageSize
    ensures k / pageSize + 1 == page ==> k == (page - 1) * pageSize + k % pageSize
  {
    var q := k / pageSize;
    assert k == q * pageSize + k % pageSize;
    if q < page - 1 {
      MulGrows(q + 1, page - 1, pageSize);
    } else if q > page - 1 {
      MulGrows(page, q, pageSize);
    }
  }

  // resolve_generation, with its in-place assembly
  method ResolveGeneration(env: Env, store: Store, gen: Generation) returns (r: Result<Bytes>)
    ensures r == ResolveBytes(env, store, gen)
  {
    hide ReadBase, LoadMap, ReadPage, Supplied, Assemble, MapEntries, WellFormed, SortedEntries, Bounded, Contents;
    var base := ReadBase(env, store, gen);
    if base.Err? {
      return Err(base.kind);
    }
    var tree := LoadMap(env, store, gen);
    if tree.Err? {
      return Err(tree.kind);
    }
    var s := MapEntries(tree.value, gen.pageCount);
    if !Supplied(s, |base.value| / gen.pageSize, gen.pageCount) {
      return Err(Corrupt);
    }
    r := AssembleInPlace(env, store, gen.pageSize, base.value, s, gen.pageCount);
  }
}
