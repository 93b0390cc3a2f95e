// Stored documents: some fields, an array of records of one form, and some more fields.
module Documents {
  import opened Wrappers
  import opened Objects
  import opened Encoding
  import opened Cbor

  // The items of a document; the last of `front` is the head of the array of rows.
  datatype Document = Document(front: seq<Token>, rows: seq<seq<Token>>, trailer: seq<Token>)

  datatype Layout = Layout(front: seq<Pattern>, row: seq<Pattern>, trailer: seq<Pattern>)

  function Items(d: Document): seq<Token> {
    d.front + (Flat(d.rows) + d.trailer)
  }

  // A document of this layout with at least one row.
  ghost predicate Follows(l: Layout, d: Document) {
    && Matches(l.front, d.front) && AllMatch(l.row, d.rows, |d.rows|) && Matches(l.trailer, d.trailer)
    && d.rows != [] && d.front != [] && d.front[|d.front| - 1] == ArrayHead(|d.rows|)
  }

  lemma FollowsSizes(l: Layout, d: Document)
    requires Follows(l, d)
    ensures |d.front| == |l.front| && |d.trailer| == |l.trailer| && AllMatch(l.row, d.rows, |d.rows|)
    ensures forall i :: 0 <= i < |d.rows| ==> |d.rows[i]| == |l.row|
  {
    forall i | 0 <= i < |d.rows|
      ensures |d.rows[i]| == |l.row|
    {
      assert Matches(l.row, d.rows[i]);
    }
  }

  // What comes after the front and after the rows.
  lemma AfterFront(l: Layout, d: Document, start: Option<seq<Token>>, front: seq<Token>, rest: Option<seq<Token>>)
    requires Follows(l, d) && start == Some(Items(d)) && Matches(l.front, front) && start == Prepend(front, rest)
    ensures front == d.front && rest == Some(Flat(d.rows) + d.trailer)
  {
    FollowsSizes(l, d);
    SplitSame(front, rest.value, d.front, Flat(d.rows) + d.trailer);
    hide *;
  }

  lemma AfterRows(l: Layout, d: Document, rest: Option<seq<Token>>, rows: seq<seq<Token>>, last: Option<seq<Token>>)
    requires Follows(l, d) && rest == Some(Flat(d.rows) + d.trailer)
    requires AllMatch(l.row, rows, |d.rows|) && rest == Prepend(Flat(rows), last)
    ensures rows == d.rows && last == Some(d.trailer)
  {
    FollowsSizes(l, d);
    forall i | 0 <= i < |rows|
      ensures |rows[i]| == |d.rows[i]|
    {
      assert Matches(l.row, rows[i]);
    }
    FlatSameSize(rows, d.rows);
    SplitSame(Flat(rows), last.value, Flat(d.rows), d.trailer);
    FlatEqual(rows, d.rows);
    hide *;
  }

  lemma {:induction false} FlatLonger(rows: seq<seq<Token>>)
    requires forall i :: 0 <= i < |rows| ==> |rows[i]| > 0
    ensures |Flat(rows)| >= |rows|
  {
    if rows != [] {
      FlatLonger(rows[..|rows| - 1]);
    }
  }

  // A declared count never exceeds the bytes of a document.
  lemma CountFits(l: Layout, d: Document, b: Bytes, at: nat)
    requires Follows(l, d) && l.row != [] && at <= |b| && TokensFrom(b, at) == Some(Flat(d.rows) + d.trailer)
    ensures |d.rows| <= |b|
  {
    FollowsSizes(l, d);
    hide Matches, TokensFrom;
    FlatLonger(d.rows);
    TokensSound(b, at);
  }

  lemma FrontBegins(l: Layout, d: Document)
    requires Follows(l, d)
    ensures Matches(l.front, d.front) && Begins(Some(Items(d)), d.front)
    ensures AllMatch(l.row, d.rows, |d.rows|) && Begins(Some(Flat(d.rows) + d.trailer), Flat(d.rows))
    ensures Matches(l.trailer, d.trailer) && Begins(Some(d.trailer), d.trailer)
  {
  }

  // No two documents of one layout have the same items.
  lemma DocumentOnce(l: Layout, a: Document, b: Document)
    requires Follows(l, a) && Follows(l, b) && Items(a) == Items(b)
    ensures a == b
  {
    var start := Some(Items(a));
    var rest := Some(Flat(a.rows) + a.trailer);
    AfterFront(l, b, start, a.front, rest);
    FollowsSizes(l, a);
    FollowsSizes(l, b);
    assert a.front[|a.front| - 1] == b.front[|b.front| - 1];
    AfterRows(l, b, rest, a.rows, Some(a.trailer));
    hide *;
  }

  // The array of rows: as many as the count says, and never more than there are bytes.
  method ReadFront(d: Decoder, l: Layout) returns (front: Option<seq<Token>>)
    requires d.Valid() && l.row != []
    modifies d
    ensures d.Valid()
    ensures front.Some? ==> Matches(l.front, front.value) && TokensOk(front.value) && old(d.Rest()) == Prepend(front.value, d.Rest())
    ensures forall doc :: Follows(l, doc) && old(d.Rest()) == Some(Items(doc)) ==>
      front == Some(doc.front) && d.Rest() == Some(Flat(doc.rows) + doc.trailer) && |doc.rows| <= |d.bytes|
  {
    hide Matches, TokensFrom, TokensOk, Items, Follows, Begins;
    ghost var start := d.Rest();
    front := d.ReadRecord(l.front);
    forall doc | Follows(l, doc) && start == Some(Items(doc))
      ensures front == Some(doc.front) && d.Rest() == Some(Flat(doc.rows) + doc.trailer) && |doc.rows| <= |d.bytes|
    {
      FrontBegins(l, doc);
      AfterFront(l, doc, start, front.value, d.Rest());
      CountFits(l, doc, d.bytes, d.offset);
    }
  }

  method ReadRest(d: Decoder, l: Layout, count: nat) returns (r: Option<(seq<seq<Token>>, seq<Token>)>)
    requires d.Valid()
    modifies d
    ensures d.Valid()
    ensures r.Some? ==>
      && AllMatch(l.row, r.value.0, count) && Matches(l.trailer, r.value.1) && AllOk(r.value.0) && TokensOk(r.value.1)
      && old(d.Rest()) == Some(Flat(r.value.0) + r.value.1)
    ensures forall doc :: Follows(l, doc) && |doc.rows| == count && old(d.Rest()) == Some(Flat(doc.rows) + doc.trailer) ==>
      r == Some((doc.rows, doc.trailer))
  {
    hide Matches, TokensFrom, TokensOk, AllMatch, AllOk, Follows, Begins, Flat;
    ghost var start := d.Rest();
    var rows := d.ReadRecords(l.row, count);
    ghost var rest := d.Rest();
    forall doc | Follows(l, doc) && |doc.rows| == count && start == Some(Flat(doc.rows) + doc.trailer)
      ensures rows == Some(doc.rows) && rest == Some(doc.trailer)
    {
      FrontBegins(l, doc);
      AfterRows(l, doc, start, rows.value, rest);
    }
    if rows.None? {
      return None;
    }
    var trailer := d.ReadRecord(l.trailer);
    forall doc | Follows(l, doc) && |doc.rows| == count && start == Some(Flat(doc.rows) + doc.trailer)
      ensures trailer == Some(doc.trailer) && d.Rest() == Some([])
    {
      FrontBegins(l, doc);
      LastRecord(l, doc, rest, trailer.value, d.Rest());
    }
    if trailer.None? {
      return None;
    }
    var finished := d.Finish();
    if !finished {
      return None;
    }
    OnlyRecord(rest, trailer.value, d.Rest());
    r := Some((rows.value, trailer.value));
  }

  lemma LastRecord(l: Layout, d: Document, rest: Option<seq<Token>>, trailer: seq<Token>, last: Option<seq<Token>>)
    requires Follows(l, d) && rest == Some(d.trailer) && Matches(l.trailer, trailer) && rest == Prepend(trailer, last)
    ensures trailer == d.trailer && last == Some([])
  {
    FollowsSizes(l, d);
    assert d.trailer + [] == d.trailer;
    SplitSame(trailer, last.value, d.trailer, []);
    hide *;
  }

  lemma OnlyRecord(rest: Option<seq<Token>>, ts: seq<Token>, last: Option<seq<Token>>)
    requires rest == Prepend(ts, last) && last == Some([])
    ensures rest == Some(ts)
  {
    assert ts + [] == ts;
  }

  // A whole document up to the end of the input: the one whose items these are, if any.
  method ReadDocument(d: Decoder, l: Layout) returns (r: Option<Document>)
    requires d.Valid() && l.row != [] && l.front != [] && l.front[|l.front| - 1] == AnyArray
    modifies d
    ensures d.Valid()
    ensures r.Some? ==> Follows(l, r.value) && old(d.Rest()) == Some(Items(r.value))
    ensures r.Some? ==> TokensOk(r.value.front) && AllOk(r.value.rows) && TokensOk(r.value.trailer)
    ensures forall doc :: Follows(l, doc) && old(d.Rest()) == Some(Items(doc)) ==> r == Some(doc)
  {
    hide TokensFrom, TokensOk, AllOk, Flat;
    ghost var start := d.Rest();
    var front := ReadFront(d, l);
    if front.None? {
      return None;
    }
    assert Suits(l.front[|l.front| - 1], front.value[|l.front| - 1]);
    var count := front.value[|front.value| - 1].n;
    if count == 0 || count > |d.bytes| {
      return None;
    }
    hide Matches;
    var rest := ReadRest(d, l, count);
    if rest.None? {
      return None;
    }
    r := Some(Document(front.value, rest.value.0, rest.value.1));
  }

  // Writing rows one after the other.
  lemma NextRow(before: seq<Token>, rows: seq<seq<Token>>, i: nat)
    requires i < |rows|
    ensures before + Flat(rows[..i + 1]) == before + Flat(rows[..i]) + rows[i]
  {
    assert rows[..i] + [rows[i]] == rows[..i + 1];
    FlatOne(rows[..i], rows[i]);
  }

  lemma NothingYet()
    ensures TokensOk([]) && PrintAll([]) == [] && Flat([]) == []
  {
  }
}
