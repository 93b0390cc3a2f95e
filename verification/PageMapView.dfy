// The page map seen as a mapping from page numbers to entries: updating the
// tree is restricting that mapping to end of file and overriding it.
module PageMapView {
  import opened Wrappers
  import opened Objects
  import opened PageMapTree

  function AsMap(s: seq<Entry>): (m: map<nat, Entry>)
    requires SortedEntries(s)
    ensures forall e :: e in s ==> e.page in m && m[e.page] == e
    ensures forall p :: p in m ==> m[p] in s && m[p].page == p
  {
    map i | 0 <= i < |s| :: s[i].page := s[i]
  }

  function Restrict<T>(m: map<nat, T>, eof: nat): map<nat, T> {
    map p | p in m && p <= eof :: m[p]
  }

  // A successful update of a well-formed tree yields a forest of the tree's own
  // level whose mapping is the old one cut at eof, overridden by the changes.
  lemma UpdateRefinesMap(env: Env, t: Tree, changes: seq<Entry>, eof: nat)
    requires WellFormed(t) && SortedEntries(changes) && AllAtMost(changes, eof)
    requires Update(env, t, changes, eof).Ok?
    ensures var roots := Update(env, t, changes, eof).value.trees;
      && Forest(roots, t.Level())
      && SortedEntries(Flatten(t)) && SortedEntries(FlattenAll(roots))
      && AsMap(FlattenAll(roots)) == Restrict(AsMap(Flatten(t)), eof) + AsMap(changes)
      && AllAtMost(FlattenAll(roots), eof)
  {
    var roots := Update(env, t, changes, eof).value.trees;
    UpdateShape(env, t, changes, eof);
    FlattenSorted(t);
    FlattenAllSorted(roots, t.Level());
    AppliedMap(Flatten(t), changes, eof);
  }

  // The entries of the updated run: every change, and what survives of the old run.
  lemma AppliedExact(s: seq<Entry>, changes: seq<Entry>, eof: nat)
    requires SortedEntries(s) && SortedEntries(changes)
    ensures SortedEntries(Applied(s, changes, eof))
    ensures forall e :: e in Applied(s, changes, eof) <==>
      e in changes || (e in s && e.page <= eof && forall f :: f in changes ==> f.page != e.page)
  {
    AppliedSorted(s, changes, eof);
    KeepSorted(s, eof);
    KeepElements(s, eof);
    MergeExact(Keep(s, eof), changes);
  }

  lemma MapOfElements(s: seq<Entry>, m: map<nat, Entry>)
    requires SortedEntries(s)
    requires forall p :: p in m ==> m[p] in s && m[p].page == p
    requires forall e :: e in s ==> e.page in m
    ensures AsMap(s) == m
  {
    forall p | p in m
      ensures p in AsMap(s) && AsMap(s)[p] == m[p]
    {
      assert m[p] in s;
    }
  }

  lemma AppliedMap(s: seq<Entry>, changes: seq<Entry>, eof: nat)
    requires SortedEntries(s) && SortedEntries(changes) && AllAtMost(changes, eof)
    ensures SortedEntries(Applied(s, changes, eof))
    ensures AsMap(Applied(s, changes, eof)) == Restrict(AsMap(s), eof) + AsMap(changes)
    ensures AllAtMost(Applied(s, changes, eof), eof)
  {
    AppliedExact(s, changes, eof);
    var r, m := Applied(s, changes, eof), Restrict(AsMap(s), eof) + AsMap(changes);
    forall p | p in m
      ensures m[p] in r && m[p].page == p
    {
      if p in AsMap(changes) {
        assert m[p] in changes;
      } else {
        assert m[p] in s && forall f :: f in changes ==> f.page != p;
      }
    }
    MapOfElements(r, m);
    forall i | 0 <= i < |r|
      ensures r[i].page <= eof
    {
      assert r[i] in r;
    }
  }
}
