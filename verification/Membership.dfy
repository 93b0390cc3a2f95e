// Snapshots, branches and the files live on each: an append adds rows to every table
// it concerns, and the materialised membership stays that of the snapshot ancestry.
module Membership {
  import opened Wrappers
  import opened Objects

  type SnapshotId = nat
  type FileId = nat
  type RefName = nat

  const MAIN: RefName := 0
  const I64_MAX: nat := 0x7FFF_FFFF_FFFF_FFFF

  datatype Snapshot = Snapshot(parent: Option<SnapshotId>, sequence: nat, version: nat)

  datatype Ref = Ref(branch: bool, snapshot: Option<SnapshotId>, created: nat, updated: nat)

  // What makes a file live: who added it, at which data and file sequence number.
  datatype LiveFile = LiveFile(file: FileId, added: SnapshotId, data: nat, sequence: nat)

  datatype Tables = Tables(
    version: nat, lastSequence: nat, snapshots: map<SnapshotId, Snapshot>, files: set<FileId>,
    changes: set<(SnapshotId, FileId)>, refs: map<RefName, Ref>, live: set<(RefName, LiveFile)>)

  // The rows of one append.
  datatype Append = Append(snapshot: SnapshotId, target: RefName, version: nat, sequence: nat, files: seq<FileId>)

  const Genesis: Tables := Tables(0, 0, map[], {}, {}, map[MAIN := Ref(true, None, 0, 0)], {})

  // ----- Ancestry -------------------------------------------------------------------------

  // From a tip towards the first snapshot, sequence numbers decreasing below `bound`.
  function Chain(snapshots: map<SnapshotId, Snapshot>, tip: Option<SnapshotId>, bound: nat): Option<seq<SnapshotId>>
    decreases bound
  {
    if tip.None? then Some([])
    else if tip.value !in snapshots then None
    else
      var s := snapshots[tip.value];
      if s.sequence == 0 || s.sequence >= bound then None
      else
        var rest := Chain(snapshots, s.parent, s.sequence);
        if rest.None? then None else Some([tip.value] + rest.value)
  }

  function Ancestry(t: Tables, name: RefName): Option<seq<SnapshotId>>
    requires name in t.refs
  {
    Chain(t.snapshots, t.refs[name].snapshot, U64_MAX)
  }

  // The snapshots already walked, then the rest.
  function After(chain: seq<SnapshotId>, rest: Option<seq<SnapshotId>>): Option<seq<SnapshotId>> {
    if rest.None? then None else Some(chain + rest.value)
  }

  lemma AfterNone(rest: Option<seq<SnapshotId>>)
    ensures After([], rest) == rest
  {
    if rest.Some? {
      assert [] + rest.value == rest.value;
    }
  }

  // ancestry: the walk, with its check against cycles. It ends for any tables.
  method WalkAncestry(snapshots: map<SnapshotId, Snapshot>, start: Option<SnapshotId>) returns (r: Option<seq<SnapshotId>>)
    ensures r == Chain(snapshots, start, U64_MAX)
  {
    var tip := start;
    var chain: seq<SnapshotId> := [];
    var seen: set<SnapshotId> := {};
    var lastSequence := U64_MAX;
    AfterNone(Chain(snapshots, start, U64_MAX));
    while tip.Some?
      invariant forall id :: id in seen ==> id in snapshots && snapshots[id].sequence >= lastSequence
      invariant Chain(snapshots, start, U64_MAX) == After(chain, Chain(snapshots, tip, lastSequence))
      decreases lastSequence
    {
      var id := tip.value;
      if id in seen {
        return None;
      }
      seen := seen + {id};
      if id !in snapshots {
        return None;
      }
      var s := snapshots[id];
      if s.sequence == 0 || s.sequence >= lastSequence {
        return None;
      }
      ghost var rest := Chain(snapshots, s.parent, s.sequence);
      assert rest.Some? ==> chain + ([id] + rest.value) == chain + [id] + rest.value;
      lastSequence := s.sequence;
      chain := chain + [id];
      tip := s.parent;
    }
    assert chain + [] == chain;
    return Some(chain);
  }

  // Sequence numbers strictly decrease along an ancestry, so nothing is its own ancestor.
  lemma {:induction false} ChainDescends(snapshots: map<SnapshotId, Snapshot>, tip: Option<SnapshotId>, bound: nat, i: nat, j: nat)
    requires Chain(snapshots, tip, bound).Some? && i < j < |Chain(snapshots, tip, bound).value|
    ensures var chain := Chain(snapshots, tip, bound).value;
      && chain[i] in snapshots && chain[j] in snapshots && chain[i] != chain[j]
      && snapshots[chain[j]].sequence < snapshots[chain[i]].sequence < bound
    decreases bound
  {
    var s := snapshots[tip.value];
    if i > 0 {
      ChainDescends(snapshots, s.parent, s.sequence, i - 1, j - 1);
    } else {
      ChainBelow(snapshots, s.parent, s.sequence, j - 1);
    }
  }

  lemma {:induction false} ChainBelow(snapshots: map<SnapshotId, Snapshot>, tip: Option<SnapshotId>, bound: nat, i: nat)
    requires Chain(snapshots, tip, bound).Some? && i < |Chain(snapshots, tip, bound).value|
    ensures var id := Chain(snapshots, tip, bound).value[i]; id in snapshots && 0 < snapshots[id].sequence < bound
    decreases bound
  {
    var s := snapshots[tip.value];
    if i > 0 {
      ChainBelow(snapshots, s.parent, s.sequence, i - 1);
    }
  }

  // A chain that is there stays there when snapshots are added, and whatever bound above
  // its tip it is read with.
  lemma {:induction false} ChainKept(snapshots: map<SnapshotId, Snapshot>, more: map<SnapshotId, Snapshot>, tip: Option<SnapshotId>, bound: nat, other: nat)
    requires Chain(snapshots, tip, bound).Some?
    requires forall id :: id in snapshots ==> id in more && more[id] == snapshots[id]
    requires tip.Some? ==> snapshots[tip.value].sequence < other
    ensures Chain(more, tip, other) == Chain(snapshots, tip, bound)
    decreases bound
  {
    if tip.Some? {
      var s := snapshots[tip.value];
      if s.parent.Some? {
        ParentBelow(snapshots, tip, bound);
      }
      ChainKept(snapshots, more, s.parent, s.sequence, s.sequence);
    }
  }

  lemma ParentBelow(snapshots: map<SnapshotId, Snapshot>, tip: Option<SnapshotId>, bound: nat)
    requires tip.Some? && Chain(snapshots, tip, bound).Some? && snapshots[tip.value].parent.Some?
    ensures snapshots[tip.value].parent.value in snapshots
    ensures snapshots[snapshots[tip.value].parent.value].sequence < snapshots[tip.value].sequence
  {
  }

  // ----- Valid tables -----------------------------------------------------------------------

  // The union of what the snapshots of a chain added.
  function Added(t: Tables, chain: seq<SnapshotId>): set<LiveFile> {
    set c | c in t.changes && c.0 in chain && c.0 in t.snapshots
      :: LiveFile(c.1, c.0, t.snapshots[c.0].sequence, t.snapshots[c.0].sequence)
  }

  function LiveOn(t: Tables, name: RefName): set<LiveFile> {
    set row | row in t.live && row.0 == name :: row.1
  }

  // A branch lists exactly the files its ancestry added; a tag lists none.
  predicate Materialized(t: Tables, name: RefName)
    requires name in t.refs
  {
    if t.refs[name].branch then Ancestry(t, name).Some? && LiveOn(t, name) == Added(t, Ancestry(t, name).value)
    else LiveOn(t, name) == {}
  }

  ghost predicate HasSequence(snapshots: map<SnapshotId, Snapshot>, n: int) {
    exists id :: id in snapshots && snapshots[id].sequence == n
  }

  // The sequence numbers in use are exactly 1 to the last one.
  ghost predicate Sequenced(t: Tables) {
    && (forall id :: id in t.snapshots ==> 1 <= t.snapshots[id].sequence <= t.lastSequence)
    && (forall n :: 1 <= n <= t.lastSequence ==> HasSequence(t.snapshots, n))
    && (forall a, b :: a in t.snapshots && b in t.snapshots && a != b ==> t.snapshots[a].sequence != t.snapshots[b].sequence)
  }

  // Each snapshot has a version of its own, above its parent's.
  ghost predicate Versioned(t: Tables) {
    && (forall id :: id in t.snapshots ==> 1 <= t.snapshots[id].version <= t.version)
    && (forall a, b :: a in t.snapshots && b in t.snapshots && a != b ==> t.snapshots[a].version != t.snapshots[b].version)
    && (forall id :: id in t.snapshots && t.snapshots[id].parent.Some? ==>
          var p := t.snapshots[id].parent.value;
          p in t.snapshots && t.snapshots[p].sequence < t.snapshots[id].sequence && t.snapshots[p].version < t.snapshots[id].version)
  }

  ghost predicate RefsValid(t: Tables) {
    && MAIN in t.refs && t.refs[MAIN].branch && t.refs[MAIN].created == 0
    && (forall name :: name in t.refs ==>
          && t.refs[name].created <= t.refs[name].updated <= t.version
          && (!t.refs[name].branch ==> t.refs[name].snapshot.Some?))
  }

  // Every row refers to rows that exist.
  ghost predicate Referential(t: Tables) {
    && (forall c :: c in t.changes ==> c.0 in t.snapshots && c.1 in t.files)
    && (forall row :: row in t.live ==> row.0 in t.refs && row.1.file in t.files)
    && (forall name :: name in t.refs && t.refs[name].snapshot.Some? ==> t.refs[name].snapshot.value in t.snapshots)
  }

  // No file is added by two snapshots.
  ghost predicate AddedOnce(t: Tables) {
    forall c, d :: c in t.changes && d in t.changes && c.1 == d.1 ==> c == d
  }

  ghost predicate Valid(t: Tables) {
    && t.lastSequence <= I64_MAX && Sequenced(t) && Versioned(t) && RefsValid(t) && Referential(t) && AddedOnce(t)
    && forall name :: name in t.refs ==> Materialized(t, name)
  }

  lemma GenesisValid()
    ensures Valid(Genesis)
  {
  }

  // ----- Append ----------------------------------------------------------------------------------

  // Each file once, and none known.
  predicate NewFiles(added: seq<FileId>, files: set<FileId>) {
    && (forall i, j :: 0 <= i < j < |added| ==> added[i] != added[j])
    && (forall i :: 0 <= i < |added| ==> added[i] !in files)
  }

  // What the tables accept: unused identifiers, the next version, a branch to move.
  predicate Appendable(t: Tables, a: Append) {
    && a.version == t.version + 1 && a.snapshot !in t.snapshots && a.sequence <= I64_MAX && a.version <= I64_MAX
    && (forall id :: id in t.snapshots ==> t.snapshots[id].sequence != a.sequence)
    && NewFiles(a.files, t.files) && a.target in t.refs && t.refs[a.target].branch
  }

  function Listed(files: seq<FileId>): set<FileId> { set f | f in files }

  function AppendTo(t: Tables, a: Append): Tables
    requires a.target in t.refs
  {
    Tables(
      a.version, a.sequence,
      t.snapshots[a.snapshot := Snapshot(t.refs[a.target].snapshot, a.sequence, a.version)],
      t.files + Listed(a.files),
      t.changes + (set f | f in Listed(a.files) :: (a.snapshot, f)),
      t.refs[a.target := t.refs[a.target].(snapshot := Some(a.snapshot), updated := a.version)],
      t.live + (set f | f in Listed(a.files) :: (a.target, LiveFile(f, a.snapshot, a.sequence, a.sequence))))
  }

  // An append with the next sequence number, as the candidate builder draws it.
  predicate Next(t: Tables, a: Append) {
    Appendable(t, a) && a.sequence == t.lastSequence + 1
  }

  lemma SequencedStep(t: Tables, a: Append)
    requires Sequenced(t) && Next(t, a)
    ensures Sequenced(AppendTo(t, a))
  {
    hide NewFiles;
    var after := AppendTo(t, a).snapshots;
    forall n | 1 <= n <= a.sequence
      ensures HasSequence(after, n)
    {
      if n == a.sequence {
        assert after[a.snapshot].sequence == n;
      } else {
        assert HasSequence(t.snapshots, n);
        var id :| id in t.snapshots && t.snapshots[id].sequence == n;
        assert after[id].sequence == n;
      }
    }
    hide HasSequence, Listed;
  }

  lemma VersionedStep(t: Tables, a: Append)
    requires Versioned(t) && Referential(t) && Sequenced(t) && Next(t, a)
    ensures Versioned(AppendTo(t, a))
  {
    hide NewFiles, HasSequence, Listed;
  }

  lemma RefsStep(t: Tables, a: Append)
    requires RefsValid(t) && Next(t, a)
    ensures RefsValid(AppendTo(t, a))
  {
    hide NewFiles, Listed;
  }

  lemma ReferentialStep(t: Tables, a: Append)
    requires Referential(t) && Next(t, a)
    ensures Referential(AppendTo(t, a))
  {
    hide NewFiles;
  }

  // A file already known cannot be added again.
  lemma AddedOnceStep(t: Tables, a: Append)
    requires AddedOnce(t) && Referential(t) && Next(t, a)
    ensures AddedOnce(AppendTo(t, a))
  {
    forall c, d | c in AppendTo(t, a).changes && d in AppendTo(t, a).changes && c.1 == d.1
      ensures c == d
    {
      assert c !in t.changes ==> c.1 in Listed(a.files) && c.1 !in t.files;
      assert d !in t.changes ==> d.1 in Listed(a.files) && d.1 !in t.files;
    }
  }

  // So a branch lists a file once at most, as its one snapshot added it.
  lemma LiveOnce(t: Tables, name: RefName, x: LiveFile, y: LiveFile)
    requires Valid(t) && name in t.refs && x in LiveOn(t, name) && y in LiveOn(t, name) && x.file == y.file
    ensures x == y && (x.added, x.file) in t.changes && x.added in t.snapshots
    ensures x.data == x.sequence == t.snapshots[x.added].sequence
  {
    assert Materialized(t, name);
    var chain := Ancestry(t, name).value;
    assert x in Added(t, chain) && y in Added(t, chain);
    assert (x.added, x.file) in t.changes && (y.added, y.file) in t.changes;
  }

  // An append is refused exactly for what would break the tables: a known file among it.
  lemma KnownFileRefused(t: Tables, a: Append, f: FileId)
    requires f in a.files && f in t.files
    ensures !Appendable(t, a)
  {
    var i :| 0 <= i < |a.files| && a.files[i] == f;
    assert a.files[i] in t.files;
  }

  // In valid tables every walk arrives: parents exist and have smaller sequence numbers.
  lemma {:induction false} ChainArrives(t: Tables, tip: Option<SnapshotId>, bound: nat)
    requires Sequenced(t) && Versioned(t)
    requires tip.Some? ==> tip.value in t.snapshots && t.snapshots[tip.value].sequence < bound
    ensures Chain(t.snapshots, tip, bound).Some?
    decreases bound
  {
    if tip.Some? {
      var s := t.snapshots[tip.value];
      assert s.parent.Some? ==> s.parent.value in t.snapshots && t.snapshots[s.parent.value].sequence < s.sequence;
      ChainArrives(t, s.parent, s.sequence);
    }
  }

  // So every branch and tag has an ancestry.
  lemma AncestryArrives(t: Tables, name: RefName)
    requires Valid(t) && name in t.refs
    ensures Ancestry(t, name).Some?
  {
    TipBelow(t, name);
    ChainArrives(t, t.refs[name].snapshot, U64_MAX);
  }

  // The ancestry of the branch that moves gains the new snapshot; all others stay.
  lemma AncestryStep(t: Tables, a: Append, name: RefName)
    requires Valid(t) && Next(t, a) && name in t.refs
    ensures Ancestry(t, name).Some? && Ancestry(AppendTo(t, a), name)
         == Some((if name == a.target then [a.snapshot] else []) + Ancestry(t, name).value)
  {
    AncestryArrives(t, name);
    TipBelow(t, name);
    hide Valid, Materialized, Listed, NewFiles;
    var after := AppendTo(t, a);
    var tip := t.refs[name].snapshot;
    assert [] + Ancestry(t, name).value == Ancestry(t, name).value;
    ChainKept(t.snapshots, after.snapshots, tip, U64_MAX, if name == a.target then a.sequence else U64_MAX);
    if name == a.target {
      assert after.refs[name].snapshot == Some(a.snapshot) && after.snapshots[a.snapshot].parent == tip;
    }
  }

  lemma TipBelow(t: Tables, name: RefName)
    requires Valid(t) && name in t.refs
    ensures t.refs[name].snapshot.Some? ==>
      && t.refs[name].snapshot.value in t.snapshots && t.snapshots[t.refs[name].snapshot.value].sequence <= t.lastSequence
    ensures t.lastSequence < U64_MAX
  {
  }

  // What a chain of old snapshots added is not touched; the new snapshot added its files.
  lemma AddedStep(t: Tables, a: Append, chain: seq<SnapshotId>)
    requires Valid(t) && Next(t, a) && forall id :: id in chain ==> id in t.snapshots
    ensures Added(AppendTo(t, a), chain) == Added(t, chain)
    ensures Added(AppendTo(t, a), [a.snapshot] + chain)
         == Added(t, chain) + (set f | f in Listed(a.files) :: LiveFile(f, a.snapshot, a.sequence, a.sequence))
  {
    var after := AppendTo(t, a);
    assert Referential(t);
    hide Valid, Materialized, Sequenced, Versioned, RefsValid, Appendable;
    assert a.snapshot !in t.snapshots;
    var news := set f | f in Listed(a.files) :: LiveFile(f, a.snapshot, a.sequence, a.sequence);
    forall x | x in Added(after, chain)
      ensures x in Added(t, chain)
    {
      var c :| c in after.changes && c.0 in chain && c.0 in after.snapshots
        && x == LiveFile(c.1, c.0, after.snapshots[c.0].sequence, after.snapshots[c.0].sequence);
      assert c in t.changes;
    }
    forall x | x in Added(t, chain)
      ensures x in Added(after, chain)
    {
      var c :| c in t.changes && c.0 in chain && c.0 in t.snapshots
        && x == LiveFile(c.1, c.0, t.snapshots[c.0].sequence, t.snapshots[c.0].sequence);
      assert c in after.changes && c.0 in after.snapshots;
    }
    forall x | x in Added(after, [a.snapshot] + chain)
      ensures x in Added(t, chain) + news
    {
      var c :| c in after.changes && c.0 in [a.snapshot] + chain && c.0 in after.snapshots
        && x == LiveFile(c.1, c.0, after.snapshots[c.0].sequence, after.snapshots[c.0].sequence);
      if c in t.changes {
        assert c.0 in chain;
      } else {
        assert c.1 in Listed(a.files);
      }
    }
    forall x | x in Added(t, chain) + news
      ensures x in Added(after, [a.snapshot] + chain)
    {
      if x in news {
        assert (a.snapshot, x.file) in after.changes;
      } else {
        var c :| c in t.changes && c.0 in chain && c.0 in t.snapshots
          && x == LiveFile(c.1, c.0, t.snapshots[c.0].sequence, t.snapshots[c.0].sequence);
        assert c in after.changes && c.0 in [a.snapshot] + chain;
      }
    }
  }

  lemma LiveStep(t: Tables, a: Append, name: RefName)
    requires a.target in t.refs
    ensures LiveOn(AppendTo(t, a), name) == LiveOn(t, name)
      + if name == a.target then (set f | f in Listed(a.files) :: LiveFile(f, a.snapshot, a.sequence, a.sequence)) else {}
  {
    var after := AppendTo(t, a);
    var news := set f | f in Listed(a.files) :: LiveFile(f, a.snapshot, a.sequence, a.sequence);
    forall x | x in LiveOn(after, name)
      ensures x in LiveOn(t, name) || (name == a.target && x in news)
    {
      var row :| row in after.live && row.0 == name && row.1 == x;
      if row in t.live {
        assert x in LiveOn(t, name);
      }
    }
    forall x | x in LiveOn(t, name)
      ensures x in LiveOn(after, name)
    {
      var row :| row in t.live && row.0 == name && row.1 == x;
      assert row in after.live;
    }
    if name == a.target {
      forall x | x in news
        ensures x in LiveOn(after, name)
      {
        assert (a.target, x) in after.live;
      }
    }
  }

  lemma {:induction false} ChainMembers(snapshots: map<SnapshotId, Snapshot>, tip: Option<SnapshotId>, bound: nat)
    requires Chain(snapshots, tip, bound).Some?
    ensures forall id :: id in Chain(snapshots, tip, bound).value ==> id in snapshots
    decreases bound
  {
    if tip.Some? {
      ChainMembers(snapshots, snapshots[tip.value].parent, snapshots[tip.value].sequence);
    }
  }

  lemma MaterializedStep(t: Tables, a: Append, name: RefName)
    requires Valid(t) && Next(t, a) && name in t.refs
    ensures Materialized(AppendTo(t, a), name)
  {
    hide NewFiles;
    assert Materialized(t, name);
    AncestryStep(t, a, name);
    LiveStep(t, a, name);
    ChainMembers(t.snapshots, t.refs[name].snapshot, U64_MAX);
    AddedStep(t, a, Ancestry(t, name).value);
    hide Valid, Added, LiveOn, Chain;
    assert [] + Ancestry(t, name).value == Ancestry(t, name).value;
  }

  // What an append does to one branch or tag.
  ghost predicate Follows(t: Tables, a: Append, name: RefName)
    requires name in t.refs && a.target in t.refs
  {
    && Ancestry(t, name).Some?
    && if name == a.target then Ancestry(AppendTo(t, a), name) == Some([a.snapshot] + Ancestry(t, name).value)
       else Ancestry(AppendTo(t, a), name) == Ancestry(t, name) && LiveOn(AppendTo(t, a), name) == LiveOn(t, name)
  }

  lemma RefFollows(t: Tables, a: Append, name: RefName)
    requires Valid(t) && Next(t, a) && name in t.refs
    ensures Follows(t, a, name)
  {
    AncestryStep(t, a, name);
    LiveStep(t, a, name);
    assert [] + Ancestry(t, name).value == Ancestry(t, name).value;
    hide Valid, Ancestry, LiveOn, Listed, AppendTo;
  }

  // An append to any branch keeps the tables valid: sequence numbers stay 1 to the last,
  // the membership of every branch stays that of its ancestry, and only the branch that
  // moves gains ancestry and files.
  lemma AppendKeepsValid(t: Tables, a: Append)
    requires Valid(t) && Next(t, a)
    ensures Valid(AppendTo(t, a))
    ensures forall name :: name in t.refs ==> Follows(t, a, name)
  {
    SequencedStep(t, a);
    VersionedStep(t, a);
    RefsStep(t, a);
    ReferentialStep(t, a);
    AddedOnceStep(t, a);
    forall name | name in t.refs
      ensures Materialized(AppendTo(t, a), name) && Follows(t, a, name)
    {
      MaterializedStep(t, a, name);
      RefFollows(t, a, name);
    }
    hide Sequenced, Versioned, RefsValid, Referential, AddedOnce, Materialized, Follows, NewFiles, Listed;
  }

  // ----- What the validator's queries say ------------------------------------------------------

  ghost function Sequences(snapshots: map<SnapshotId, Snapshot>): set<nat> {
    set id | id in snapshots :: snapshots[id].sequence
  }

  // count(*), count(DISTINCT sequence_number) and max(sequence_number) agree with each
  // other and with the last sequence number, and all are positive.
  ghost predicate CountsAgree(t: Tables) {
    && (forall id :: id in t.snapshots ==> 1 <= t.snapshots[id].sequence <= t.lastSequence)
    && (t.lastSequence == 0 || HasSequence(t.snapshots, t.lastSequence))
    && |t.snapshots| == |Sequences(t.snapshots)| == t.lastSequence
  }

  function UpTo(n: nat): (r: set<nat>)
    ensures |r| == n && forall i :: i in r <==> 1 <= i <= n
  {
    if n == 0 then {} else UpTo(n - 1) + {n}
  }

  lemma SubsetSize(a: set<nat>, b: set<nat>)
    requires a <= b
    ensures |a| <= |b| && (|a| == |b| ==> a == b)
  {
    assert b == a + (b - a);
  }

  ghost predicate Distinct(snapshots: map<SnapshotId, Snapshot>) {
    forall a, b :: a in snapshots && b in snapshots && a != b ==> snapshots[a].sequence != snapshots[b].sequence
  }

  lemma WithoutOne(snapshots: map<SnapshotId, Snapshot>, id: SnapshotId)
    requires id in snapshots
    ensures var rest := snapshots - {id};
      && |snapshots| == |rest| + 1 && Sequences(snapshots) == Sequences(rest) + {snapshots[id].sequence}
      && (Distinct(snapshots) <==> Distinct(rest) && snapshots[id].sequence !in Sequences(rest))
  {
    var rest := snapshots - {id};
    assert rest.Keys == snapshots.Keys - {id};
    var own := snapshots[id].sequence;
    forall n | n in Sequences(snapshots)
      ensures n in Sequences(rest) + {own}
    {
      var x :| x in snapshots && snapshots[x].sequence == n;
      if x != id {
        assert x in rest;
      }
    }
    forall n | n in Sequences(rest) + {own}
      ensures n in Sequences(snapshots)
    {
      if n != own {
        var x :| x in rest && rest[x].sequence == n;
        assert x in snapshots;
      }
    }
    if own in Sequences(rest) {
      var x :| x in rest && rest[x].sequence == own;
      assert x in snapshots && x != id;
    } else {
      forall b | b in rest
        ensures snapshots[b].sequence != own
      {
        assert rest[b].sequence in Sequences(rest);
      }
      if Distinct(rest) {
        forall a, b | a in snapshots && b in snapshots && a != b
          ensures snapshots[a].sequence != snapshots[b].sequence
        {
          if a != id && b != id {
            assert a in rest && b in rest && rest[a].sequence != rest[b].sequence;
          }
        }
      }
    }
    if Distinct(snapshots) {
      forall a, b | a in rest && b in rest && a != b
        ensures rest[a].sequence != rest[b].sequence
      {
        assert a in snapshots && b in snapshots;
      }
    }
  }

  lemma {:induction false} DistinctCount(snapshots: map<SnapshotId, Snapshot>)
    ensures |Sequences(snapshots)| <= |snapshots|
    ensures |Sequences(snapshots)| == |snapshots| <==> Distinct(snapshots)
    decreases |snapshots|
  {
    if snapshots == map[] {
      assert Sequences(snapshots) == {};
    } else {
      var id :| id in snapshots;
      WithoutOne(snapshots, id);
      hide Sequences, Distinct;
      var rest := snapshots - {id};
      DistinctCount(rest);
      var own := snapshots[id].sequence;
      if own in Sequences(rest) { assert Sequences(rest) + {own} == Sequences(rest); }
    }
  }

  // Three aggregates are enough to know that the sequence numbers are exactly 1 to last.
  lemma CountsMeanSequenced(t: Tables)
    ensures CountsAgree(t) <==> Sequenced(t)
  {
    DistinctCount(t.snapshots);
    var used, all := Sequences(t.snapshots), UpTo(t.lastSequence);
    if CountsAgree(t) {
      SubsetSize(used, all);
      forall n | 1 <= n <= t.lastSequence
        ensures HasSequence(t.snapshots, n)
      {
        assert n in all;
      }
    }
    if Sequenced(t) {
      forall n | n in all
        ensures n in used
      {
        assert HasSequence(t.snapshots, n);
      }
      assert used == all;
    }
  }

  // The membership part of validate: ref by ref, the rows against the walked ancestry.
  method ValidateMembership(t: Tables) returns (ok: bool)
    ensures ok <==> forall name :: name in t.refs ==> Materialized(t, name)
  {
    var left := t.refs.Keys;
    while left != {}
      invariant left <= t.refs.Keys
      invariant forall name :: name in t.refs && name !in left ==> Materialized(t, name)
      decreases |left|
    {
      var name :| name in left;
      var expected: set<LiveFile> := {};
      if t.refs[name].branch {
        var chain := WalkAncestry(t.snapshots, t.refs[name].snapshot);
        if chain.None? {
          assert !Materialized(t, name);
          return false;
        }
        expected := Added(t, chain.value);
      }
      if LiveOn(t, name) != expected {
        assert !Materialized(t, name);
        return false;
      }
      left := left - {name};
    }
    ok := true;
  }

  // ----- The tables as the writer changes them ---------------------------------------------------

  class Metadata {
    var version: nat
    var lastSequence: nat
    var snapshots: map<SnapshotId, Snapshot>
    var files: set<FileId>
    var changes: set<(SnapshotId, FileId)>
    var refs: map<RefName, Ref>
    var live: set<(RefName, LiveFile)>

    ghost function Contents(): Tables
      reads this
    {
      Tables(version, lastSequence, snapshots, files, changes, refs, live)
    }

    constructor ()
      ensures Contents() == Genesis
    {
      version, lastSequence, snapshots, files := 0, 0, map[], {};
      changes, refs, live := {}, map[MAIN := Ref(true, None, 0, 0)], {};
    }

    // mutate_append within its transaction: row by row, and no row at all when one is
    // refused.
    method Apply(a: Append) returns (ok: bool)
      modifies this
      ensures ok <==> Appendable(old(Contents()), a)
      ensures Contents() == if ok then AppendTo(old(Contents()), a) else old(Contents())
    {
      if a.version != version + 1 || a.sequence > I64_MAX || a.version > I64_MAX || a.snapshot in snapshots {
        return false;
      }
      if exists id :: id in snapshots && snapshots[id].sequence == a.sequence {
        return false;
      }
      var unused, allFiles, allChanges, allLive := InsertFiles(a, files, changes, live);
      if !unused || a.target !in refs || !refs[a.target].branch {
        return false;
      }
      hide NewFiles, Listed;
      snapshots := snapshots[a.snapshot := Snapshot(refs[a.target].snapshot, a.sequence, a.version)];
      refs := refs[a.target := refs[a.target].(snapshot := Some(a.snapshot), updated := a.version)];
      files, changes, live, version, lastSequence := allFiles, allChanges, allLive, a.version, a.sequence;
      ok := true;
    }
  }

  // The rows of the files, one after the other, until one is known already.
  method InsertFiles(a: Append, files: set<FileId>, changes: set<(SnapshotId, FileId)>, live: set<(RefName, LiveFile)>)
    returns (unused: bool, allFiles: set<FileId>, allChanges: set<(SnapshotId, FileId)>, allLive: set<(RefName, LiveFile)>)
    ensures unused <==> NewFiles(a.files, files)
    ensures unused ==> allFiles == files + Listed(a.files)
    ensures unused ==> allChanges == changes + (set f | f in Listed(a.files) :: (a.snapshot, f))
    ensures unused ==> allLive == live + (set f | f in Listed(a.files) :: (a.target, LiveFile(f, a.snapshot, a.sequence, a.sequence)))
  {
    allFiles, allChanges, allLive := files, changes, live;
    for i := 0 to |a.files|
      invariant NewFiles(a.files[..i], files)
      invariant allFiles == files + Listed(a.files[..i])
      invariant allChanges == changes + (set f | f in Listed(a.files[..i]) :: (a.snapshot, f))
      invariant allLive == live + (set f | f in Listed(a.files[..i]) :: (a.target, LiveFile(f, a.snapshot, a.sequence, a.sequence)))
    {
      var file := a.files[i];
      ListedNext(a.files, i);
      NewFilesNext(a.files, files, i);
      hide NewFiles, Listed;
      if file in allFiles {
        NewFilesPrefix(a.files, files, i + 1);
        return false, {}, {}, {};
      }
      allFiles := allFiles + {file};
      allChanges := allChanges + {(a.snapshot, file)};
      allLive := allLive + {(a.target, LiveFile(file, a.snapshot, a.sequence, a.sequence))};
    }
    assert a.files[..|a.files|] == a.files;
    unused := true;
  }

  lemma NewFilesPrefix(added: seq<FileId>, files: set<FileId>, k: nat)
    requires k <= |added|
    ensures NewFiles(added, files) ==> NewFiles(added[..k], files)
  {
  }

  lemma NewFilesNext(added: seq<FileId>, files: set<FileId>, i: nat)
    requires i < |added|
    ensures NewFiles(added[..i + 1], files) <==> NewFiles(added[..i], files) && added[i] !in files + Listed(added[..i])
  {
    var front, next := added[..i], added[..i + 1];
    assert next == front + [added[i]];
    if NewFiles(next, files) {
      NewFilesPrefix(next, files, i);
      assert next[..i] == front;
      forall k | 0 <= k < i
        ensures front[k] != added[i]
      {
        assert next[k] != next[i];
      }
      assert next[i] !in files;
    }
    if NewFiles(front, files) && added[i] !in files + Listed(front) {
      forall j, k | 0 <= j < k < i + 1
        ensures next[j] != next[k]
      {
        if k == i {
          assert front[j] in Listed(front);
        } else {
          assert front[j] != front[k];
        }
      }
      forall k | 0 <= k < i + 1
        ensures next[k] !in files
      {
        if k < i {
          assert front[k] !in files;
        }
      }
    }
  }

  lemma ListedNext(files: seq<FileId>, i: nat)
    requires i < |files|
    ensures Listed(files[..i + 1]) == Listed(files[..i]) + {files[i]}
  {
    assert files[..i + 1] == files[..i] + [files[i]];
  }
}
