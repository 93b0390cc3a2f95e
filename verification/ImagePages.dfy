// Pages of an image: changed pages in page order, the pages an entry run supplies,
// and what counting them checks.
module ImagePages {
  import opened Wrappers
  import opened Objects
  import opened PageMapTree
  import opened PageMapView
  import opened PagePacks
  import opened Resolve

  // ----- Changed pages in page order ---------------------------------------------

  // A BTreeMap of changed pages, listed up to `hi`.
  function Listing(m: map<nat, Bytes>, hi: nat): seq<PageWrite> {
    if hi == 0 then []
    else Listing(m, hi - 1) + (if hi in m then [PageWrite(hi, m[hi])] else [])
  }

  lemma {:induction false} ListingSorted(m: map<nat, Bytes>, hi: nat)
    ensures SortedWrites(Listing(m, hi))
    ensures forall w :: w in Listing(m, hi) ==> 0 < w.page <= hi && w.page in m && w.bytes == m[w.page]
  {
    if hi > 0 {
      ListingSorted(m, hi - 1);
      var before := Listing(m, hi - 1);
      forall i | 0 <= i < |before|
        ensures before[i].page < hi
      {
        assert before[i] in before;
      }
    }
  }

  lemma {:induction false} ListingComplete(m: map<nat, Bytes>, hi: nat, n: nat)
    requires 0 < n <= hi && n in m
    ensures PageWrite(n, m[n]) in Listing(m, hi)
  {
    if n < hi {
      ListingComplete(m, hi - 1, n);
    }
  }

  // ----- Supplied pages -------------------------------------------------------------

  lemma MapLast(s: seq<Entry>)
    requires SortedEntries(s) && s != []
    ensures var last := |s| - 1; AsMap(s) == AsMap(s[..last])[s[last].page := s[last]]
  {
    var last := |s| - 1;
    var front := s[..last];
    assert s == front + [s[last]];
    MapOfElements(s, AsMap(front)[s[last].page := s[last]]) by {
      assert forall e :: e in front ==> e.page != s[last].page;
    }
  }

  lemma EmptyMap()
    ensures AsMap([]) == map[]
  {
  }

  lemma {:induction false} ExtendedLast(s: seq<Entry>, e: Entry, basePages: nat)
    ensures Extended(s + [e], basePages) == Extended(s, basePages) + if e.page > basePages then 1 else 0
  {
    if s == [] {
      assert s + [e] == [e];
    } else {
      assert (s + [e])[1..] == s[1..] + [e];
      ExtendedLast(s[1..], e, basePages);
    }
  }

  lemma {:induction false} ExtendedNone(s: seq<Entry>, basePages: nat)
    requires forall i :: 0 <= i < |s| ==> s[i].page <= basePages
    ensures Extended(s, basePages) == 0
  {
    if s != [] {
      ExtendedNone(s[1..], basePages);
    }
  }

  // Counting the entries beyond the checkpoint is checking that every such page is there.
  lemma {:induction false} SuppliedExact(s: seq<Entry>, basePages: nat, pageCount: nat)
    requires SortedEntries(s) && Bounded(s, pageCount)
    ensures Extended(s, basePages) <= if pageCount > basePages then pageCount - basePages else 0
    ensures Supplied(s, basePages, pageCount) <==> forall n: nat :: basePages < n <= pageCount ==> n in AsMap(s)
    decreases pageCount
  {
    hide AsMap, SortedEntries, Extended;
    if pageCount <= basePages {
      ExtendedNone(s, basePages);
    } else if s != [] && s[|s| - 1].page == pageCount {
      var last := |s| - 1;
      var front := s[..last];
      assert s == front + [s[last]];
      FrontBounded(s, pageCount);
      ExtendedLast(front, s[last], basePages);
      MapLast(s);
      SuppliedExact(front, basePages, pageCount - 1);
      assert forall n: nat :: n in AsMap(s) <==> n == pageCount || n in AsMap(front);
    } else {
      NotLast(s, pageCount);
      SuppliedExact(s, basePages, pageCount - 1);
    }
  }

  lemma FrontBounded(s: seq<Entry>, pageCount: nat)
    requires SortedEntries(s) && Bounded(s, pageCount) && s != [] && s[|s| - 1].page == pageCount
    ensures SortedEntries(s[..|s| - 1]) && Bounded(s[..|s| - 1], pageCount - 1)
  {
  }

  lemma NotLast(s: seq<Entry>, pageCount: nat)
    requires SortedEntries(s) && Bounded(s, pageCount) && pageCount > 0
    requires s == [] || s[|s| - 1].page != pageCount
    ensures Bounded(s, pageCount - 1) && pageCount !in AsMap(s)
  {
  }

  // ----- Contents of an entry run ---------------------------------------------------

  // The contents are the mapped entries, each read.
  lemma {:induction false} ContentsMap(env: Env, store: Store, pageSize: nat, s: seq<Entry>)
    requires SortedEntries(s) && PagesReadable(env, store, pageSize, s)
    ensures var m := Contents(env, store, pageSize, s);
      && m.Keys == AsMap(s).Keys
      && forall n :: n in m ==> ReadPage(env, store, pageSize, AsMap(s)[n]) == Ok(m[n])
  {
    hide ReadPage, AsMap;
    if s != [] {
      MapLast(s);
      ContentsMap(env, store, pageSize, s[..|s| - 1]);
    } else {
      EmptyMap();
    }
  }
}
