// The immutable objects of the physical image (page-map nodes, page packs,
// checkpoints and checkpoint-index nodes) and the content-addressed store that
// holds them.
module Objects {
  import opened Wrappers

  type byte = x: int | 0 <= x < 256
  type Bytes = seq<byte>
  type pos = x: nat | x > 0 witness 1

  const PAGE: nat := 4096
  const CAPACITY: nat := 128
  const MAX_NODE_BYTES: nat := 1024 * 1024
  const MAX_LEVEL: nat := 64

  datatype Digest = Digest(id: nat)

  // Path formats under `_otmp/`; the first three carry the digest of their content.
  datatype Uri =
    | PageMapUri(sha: Digest)
    | PackUri(sha: Digest)
    | IndexUri(sha: Digest)
    | OtherUri(name: nat)

  datatype Reference = Reference(uri: Uri, sha: Digest, length: nat)

  datatype PageCodec = Plain | Zstd

  datatype Entry = Entry(
    page: nat, pack: Reference, offset: nat, storedLength: nat,
    rawLength: nat, codec: PageCodec, pageSha: Digest)

  datatype Branch = Branch(maxPage: nat, child: Reference)

  datatype Node =
    | Leaf(entries: seq<Entry>)
    | Internal(level: nat, branches: seq<Branch>)

  datatype PackEntry = PackEntry(
    page: nat, offset: nat, storedLength: nat,
    rawLength: nat, codec: PageCodec, pageSha: Digest)

  // A page pack: its index, and the payload bytes that start at `payloadOffset`.
  datatype Pack = Pack(pageSize: nat, payloadOffset: pos, entries: seq<PackEntry>, payload: Bytes)

  datatype IndexChild = IndexChild(firstPage: nat, pageCount: nat, child: Reference)

  datatype IndexNode =
    | IndexLeaf(firstPage: nat, hashes: seq<Digest>)
    | IndexInternal(level: nat, entries: seq<IndexChild>)

  datatype Object =
    | NodeObject(node: Node)
    | PackObject(pack: Pack)
    | IndexObject(index: IndexNode)
    | CheckpointObject(bytes: Bytes)

  // What the model leaves open: the two digests, the encoded length of the CBOR
  // nodes, and zstd decompression.
  datatype Env = Env(
    digest: Object -> Digest,
    pageDigest: Bytes -> Digest,
    nodeSize: Node -> pos,
    indexSize: IndexNode -> pos,
    inflate: (Bytes, nat) -> Option<Bytes>)

  // The hypothesis under which content addressing works: no two objects share a digest.
  ghost predicate CollisionFree(env: Env) {
    forall a: Object, b: Object :: env.digest(a) == env.digest(b) ==> a == b
  }

  function Size(env: Env, o: Object): nat {
    match o
    case NodeObject(node) => env.nodeSize(node)
    case IndexObject(index) => env.indexSize(index)
    case PackObject(pack) => pack.payloadOffset + |pack.payload|
    case CheckpointObject(bytes) => |bytes|
  }

  type Store = map<Uri, Object>

  predicate Extends(small: Store, big: Store) {
    forall u :: u in small ==> u in big && big[u] == small[u]
  }

  // A store in which every key is the content-addressed name of its value.
  predicate ContentAddressed(env: Env, store: Store) {
    forall u :: u in store ==> !store[u].CheckpointObject? && u == NameOf(env, store[u])
  }

  function NameOf(env: Env, o: Object): Uri
    requires !o.CheckpointObject?
  {
    match o
    case NodeObject(_) => PageMapUri(env.digest(o))
    case PackObject(_) => PackUri(env.digest(o))
    case IndexObject(_) => IndexUri(env.digest(o))
  }

  // The reference a writer makes for a new content-addressed object.
  function RefOf(env: Env, o: Object): Reference
    requires !o.CheckpointObject?
  {
    Reference(NameOf(env, o), env.digest(o), Size(env, o))
  }

  // Does the store hold `o` where `r` points, with the digest and length `r` declares?
  predicate Holds(env: Env, store: Store, r: Reference, o: Object) {
    r.uri in store && store[r.uri] == o && r.sha == env.digest(o) && r.length == Size(env, o)
  }

  // The verified read: fails unless digest and length agree with the reference.
  function VerifiedRead(env: Env, store: Store, r: Reference): Result<Object> {
    if r.uri !in store then Err(NotFound)
    else if env.digest(store[r.uri]) != r.sha || Size(env, store[r.uri]) != r.length then Err(Corrupt)
    else Ok(store[r.uri])
  }

  // Two content-addressed maps never disagree on a key they share.
  lemma ContentAddressedAgree(env: Env, a: Store, b: Store)
    requires CollisionFree(env) && ContentAddressed(env, a) && ContentAddressed(env, b)
    ensures Extends(a, a + b) && Extends(b, a + b) && ContentAddressed(env, a + b)
  {
    forall u | u in a && u in b
      ensures a[u] == b[u]
    {
      assert u == NameOf(env, a[u]) == NameOf(env, b[u]);
    }
  }

  predicate PowerOfTwoPage(n: nat) {
    n == 512 || n == 1024 || n == 2048 || n == 4096 || n == 8192 || n == 16384 || n == 32768 || n == 65536
  }

  predicate ValidEntry(e: Entry) {
    && e.page > 0
    && e.pack.length > 0
    && e.storedLength > 0
    && PowerOfTwoPage(e.rawLength)
    && e.offset + e.storedLength <= e.pack.length
    && (e.codec == Plain ==> e.storedLength == e.rawLength)
  }

  predicate Ascending(s: seq<nat>) {
    forall i, j :: 0 <= i < j < |s| ==> s[i] < s[j]
  }

  predicate SortedEntries(s: seq<Entry>) {
    forall i, j :: 0 <= i < j < |s| ==> s[i].page < s[j].page
  }

  predicate ValidEntries(s: seq<Entry>) {
    forall i :: 0 <= i < |s| ==> ValidEntry(s[i])
  }

  predicate ValidBranches(s: seq<Branch>) {
    && (forall i :: 0 <= i < |s| ==> s[i].maxPage > 0 && s[i].child.length > 0)
    && (forall i, j :: 0 <= i < j < |s| ==> s[i].maxPage < s[j].maxPage)
  }

  // PageMapNode::validate
  predicate ValidNode(n: Node) {
    match n
    case Leaf(entries) => entries != [] && SortedEntries(entries) && ValidEntries(entries)
    case Internal(level, branches) => level > 0 && branches != [] && ValidBranches(branches)
  }

  // A name that carries the digest of its content, as all but checkpoints get from the writer.
  predicate ByContent(r: Reference) {
    !r.uri.OtherUri?
  }

  predicate EntriesByContent(s: seq<Entry>) {
    forall i :: 0 <= i < |s| ==> ByContent(s[i].pack)
  }

  predicate NodeByContent(n: Node) {
    match n
    case Leaf(entries) => EntriesByContent(entries)
    case Internal(_, branches) => forall i :: 0 <= i < |branches| ==> ByContent(branches[i].child)
  }

  function LevelOf(n: Node): nat {
    if n.Leaf? then 0 else n.level
  }

  function MaxPage(n: Node): nat
    requires ValidNode(n)
  {
    match n
    case Leaf(entries) => entries[|entries| - 1].page
    case Internal(_, branches) => branches[|branches| - 1].maxPage
  }

  // Does the encoded node stay under the serialized limit?
  predicate Fits(env: Env, n: Node) {
    env.nodeSize(n) <= MAX_NODE_BYTES
  }

  const U64_MAX: nat := 0xFFFF_FFFF_FFFF_FFFF

  function Pow(base: nat, exponent: nat): nat {
    if exponent == 0 then 1 else base * Pow(base, exponent - 1)
  }

  lemma MulGrows(a: nat, b: nat, c: nat)
    requires a <= b
    ensures a * c <= b * c
  {
  }

  lemma {:induction false} PowGrows(base: nat, a: nat, b: nat)
    requires base > 0 && a <= b
    ensures 0 < Pow(base, a) <= Pow(base, b)
    decreases b
  {
    if a < b {
      PowGrows(base, a, b - 1);
      MulGrows(1, base, Pow(base, b - 1));
    } else if a > 0 {
      PowGrows(base, a - 1, b - 1);
      MulGrows(1, base, Pow(base, b - 1));
    }
  }
}
