// The copy-on-write overlay a candidate database writes to: an immutable parent
// image, the pages written since, and a limit below which the parent still shows.
module Overlay {
  import opened Wrappers
  import opened Objects

  // ----- The flat image the overlay stands for -----------------------------------

  function Zeros(n: nat): Bytes {
    seq(n, _ => 0)
  }

  function Max(a: nat, b: nat): nat {
    if a < b then b else a
  }

  // The image cut or zero-extended to `length`.
  function Resized(image: Bytes, length: nat): (r: Bytes)
    ensures |r| == length
    ensures forall k :: 0 <= k < length ==> r[k] == if k < |image| then image[k] else 0
  {
    if length <= |image| then image[..length] else image + Zeros(length - |image|)
  }

  // The image with one page replaced, extended to hold it. Pages count from 1.
  function Written(image: Bytes, number: nat, page: Bytes): (r: Bytes)
    requires number > 0 && |page| == PAGE
    ensures |r| == Max(|image|, number * PAGE)
  {
    var wide := Resized(image, Max(|image|, number * PAGE));
    wide[..(number - 1) * PAGE] + page + wide[number * PAGE..]
  }

  // The whole page `number` of an image that contains it.
  function Page(image: Bytes, number: nat): (page: Bytes)
    requires 0 < number && number * PAGE <= |image|
    ensures |page| == PAGE
  {
    image[(number - 1) * PAGE..number * PAGE]
  }

  lemma PageByte(image: Bytes, k: nat)
    requires (k / PAGE + 1) * PAGE <= |image|
    ensures k < |image| && Page(image, k / PAGE + 1)[k % PAGE] == image[k]
  {
    assert k == k / PAGE * PAGE + k % PAGE;
  }

  predicate SamePage(parent: Bytes, image: Bytes, number: nat)
    requires 0 < number && number * PAGE <= |image|
  {
    number * PAGE <= |parent| && Page(parent, number) == Page(image, number)
  }

  // The pages of the image that differ from, or are absent in, the parent.
  function Difference(parent: Bytes, image: Bytes): (m: map<nat, Bytes>)
    requires |image| % PAGE == 0
  {
    map n | 0 < n <= |image| / PAGE && n * PAGE <= |image| && !SamePage(parent, image, n) :: Page(image, n)
  }

  datatype Frozen = Frozen(parent: Bytes, length: nat, changed: map<nat, Bytes>)

  datatype Op = Write(number: nat, page: Bytes) | Truncate(length: nat)

  function Applied(image: Bytes, op: Op): Bytes {
    match op
    case Write(number, page) => if Accepted(op) then Written(image, number, page) else image
    case Truncate(length) => Resized(image, length)
  }

  function Run(image: Bytes, ops: seq<Op>): Bytes
    decreases |ops|
  {
    if ops == [] then image else Applied(Run(image, ops[..|ops| - 1]), ops[|ops| - 1])
  }

  // Whole pages, within the address space.
  predicate Accepted(op: Op) {
    match op
    case Write(number, page) => number > 0 && |page| == PAGE && number * PAGE <= U64_MAX
    case Truncate(length) => length <= U64_MAX
  }

  // ----- What a session leaves --------------------------------------------------------------

  // A write of the byte's page, or a cut at or below it.
  predicate Touches(op: Op, k: nat) {
    match op
    case Write(number, _) => Accepted(op) && k / PAGE == number - 1
    case Truncate(length) => length <= k
  }

  // `i` is the last of these operations that touches the byte, -1 if none does.
  predicate LastTouch(ops: seq<Op>, k: nat, i: int) {
    && -1 <= i < |ops| && (i >= 0 ==> Touches(ops[i], k))
    && forall j :: i < j < |ops| ==> !Touches(ops[j], k)
  }

  // `i` is the last cut, -1 if there is none.
  predicate LastCut(ops: seq<Op>, i: int) {
    && -1 <= i < |ops| && (i >= 0 ==> ops[i].Truncate?)
    && forall j :: i < j < |ops| ==> ops[j].Write?
  }

  // Whether the byte was there to begin with or its last touch wrote it.
  predicate Supplied(image: Bytes, ops: seq<Op>, k: nat, i: int)
    requires LastTouch(ops, k, i)
  {
    if i < 0 then k < |image| else ops[i].Write?
  }

  // One operation leaves a byte alone unless it touches it.
  lemma StepByte(image: Bytes, op: Op, k: nat)
    ensures k < |Applied(image, op)| ==>
      (Applied(image, op)[k] == if Touches(op, k) then (if op.Write? then op.page[k % PAGE] else 0) else if k < |image| then image[k] else 0)
    ensures Touches(op, k) ==> (k < |Applied(image, op)| <==> op.Write?)
    ensures !Touches(op, k) && k < |image| ==> k < |Applied(image, op)|
  {
    if op.Write? && Accepted(op) {
      WrittenBytes(image, op.number, op.page);
      hide Written;
      assert k / PAGE == op.number - 1 ==> k < op.number * PAGE;
    }
  }

  lemma LastTouchFront(ops: seq<Op>, k: nat, i: int)
    requires ops != [] && LastTouch(ops, k, i) && i < |ops| - 1
    ensures LastTouch(ops[..|ops| - 1], k, i) && !Touches(ops[|ops| - 1], k)
  {
    hide Touches;
    var front := ops[..|ops| - 1];
    assert forall j :: 0 <= j < |front| ==> front[j] == ops[j];
  }

  // Every byte a session leaves is what the last write or cut that touched it makes of
  // it: the byte written, or zero after a cut; the parent's where nothing touched it, and
  // zero beyond the parent. A byte that is there to begin with or was written is there at
  // the end unless a cut takes it away.
  lemma {:induction false} RunByte(image: Bytes, ops: seq<Op>, k: nat, i: int)
    requires LastTouch(ops, k, i)
    ensures k < |Run(image, ops)| ==>
      (Run(image, ops)[k] == if i < 0 then (if k < |image| then image[k] else 0) else if ops[i].Write? then ops[i].page[k % PAGE] else 0)
    ensures Supplied(image, ops, k, i) ==> k < |Run(image, ops)|
    decreases |ops|
  {
    hide Touches, Applied;
    if ops != [] {
      var last := |ops| - 1;
      StepByte(Run(image, ops[..last]), ops[last], k);
      if i < last {
        LastTouchFront(ops, k, i);
        RunByte(image, ops[..last], k, i);
      }
    }
  }

  // The length a session leaves is that of its last cut, or the parent's, stretched to
  // the end of every page written since, and to nothing else.
  lemma {:induction false} RunLength(image: Bytes, ops: seq<Op>, i: int)
    requires LastCut(ops, i)
    ensures var start := if i < 0 then |image| else ops[i].length;
      && start <= |Run(image, ops)|
      && (forall j :: i < j < |ops| && Accepted(ops[j]) ==> ops[j].number * PAGE <= |Run(image, ops)|)
      && (|Run(image, ops)| == start || exists j :: i < j < |ops| && Accepted(ops[j]) && |Run(image, ops)| == ops[j].number * PAGE)
    decreases |ops|
  {
    hide Accepted, Written;
    if ops != [] {
      var last := |ops| - 1;
      var front := ops[..last];
      assert forall j :: 0 <= j < last ==> front[j] == ops[j];
      if i < last {
        RunLength(image, front, i);
        StepLength(Run(image, front), ops[last]);
        hide Applied;
      }
    }
  }

  lemma StepLength(image: Bytes, op: Op)
    requires op.Write?
    ensures |Applied(image, op)| == if Accepted(op) then Max(|image|, op.number * PAGE) else |image|
  {
  }

  // ----- The overlay -------------------------------------------------------------------------

  // One byte as the overlay stores it.
  function Stored(parent: Bytes, limit: nat, pages: map<nat, Bytes>, position: nat): byte
    requires limit <= |parent| && forall i :: i in pages ==> |pages[i]| == PAGE
  {
    if position / PAGE in pages then pages[position / PAGE][position % PAGE]
    else if position < limit then parent[position]
    else 0
  }

  class Overlay {
    const parent: Bytes
    var length: nat
    var parentLimit: nat
    var pages: map<nat, Bytes>
    var failed: bool

    // The flat image the overlay refines.
    ghost var image: Bytes

    ghost predicate Valid()
      reads this
    {
      && parentLimit <= |parent| && parentLimit <= length <= U64_MAX
      && (forall i :: i in pages ==> |pages[i]| == PAGE)
      && |image| == length
      && (forall k :: 0 <= k < length ==> image[k] == Stored(parent, parentLimit, pages, k))
      && (forall k :: k >= length ==> Stored(parent, parentLimit, pages, k) == 0)
    }

    constructor (parent: Bytes)
      requires |parent| <= U64_MAX
      ensures Valid() && this.parent == parent && image == parent && !failed
    {
      this.parent := parent;
      length, parentLimit, pages, failed := |parent|, |parent|, map[], false;
      image := parent;
    }

    // read_at: fills the buffer page by page and returns how many bytes the image supplied.
    method ReadAt(offset: nat, bytes: array<byte>) returns (count: nat)
      requires Valid()
      modifies bytes
      ensures Valid()
      ensures count == if offset >= length then 0 else if bytes.Length < length - offset then bytes.Length else length - offset
      ensures forall i :: 0 <= i < bytes.Length ==> bytes[i] == if i < count then image[offset + i] else 0
    {
      forall i | 0 <= i < bytes.Length {
        bytes[i] := 0;
      }
      count := if offset >= length then 0 else if bytes.Length < length - offset then bytes.Length else length - offset;
      var copied := 0;
      while copied < count
        invariant 0 <= copied <= count
        invariant forall i :: 0 <= i < bytes.Length ==> bytes[i] == if i < copied then image[offset + i] else 0
        invariant Valid()
      {
        var pos := offset + copied;
        var chunk := if PAGE - pos % PAGE < count - copied then PAGE - pos % PAGE else count - copied;
        if pos / PAGE in pages {
          var page := pages[pos / PAGE];
          forall i | 0 <= i < chunk {
            bytes[copied + i] := page[pos % PAGE + i];
          }
        } else if pos < parentLimit {
          var fromParent := if chunk < parentLimit - pos then chunk else parentLimit - pos;
          forall i | 0 <= i < fromParent {
            bytes[copied + i] := parent[pos + i];
          }
        }
        forall i | copied <= i < copied + chunk
          ensures bytes[i] == image[offset + i]
        {
          SamePageIndex(pos, i - copied);
          assert image[offset + i] == Stored(parent, parentLimit, pages, offset + i);
        }
        copied := copied + chunk;
      }
    }

    // write_page: a rejected page leaves the image alone and marks the overlay failed.
    method WritePage(number: nat, page: Bytes) returns (ok: bool)
      requires Valid()
      modifies this
      ensures Valid()
      ensures ok <==> Accepted(Write(number, page))
      ensures ok <==> number > 0 && |page| == PAGE && number * PAGE <= U64_MAX
      ensures image == Applied(old(image), Write(number, page))
      ensures ok ==> |image| == Max(|old(image)|, number * PAGE)
      ensures ok ==> forall k :: 0 <= k < |image| ==>
        image[k] == if k / PAGE == number - 1 then page[k % PAGE] else if k < |old(image)| then old(image)[k] else 0
      ensures !ok ==> image == old(image)
      ensures failed == (old(failed) || !ok)
    {
      if |page| != PAGE || number == 0 || number * PAGE > U64_MAX {
        failed := true;
        return false;
      }
      image := Written(image, number, page);
      pages := pages[number - 1 := page];
      length := Max(length, number * PAGE);
      WrittenBytes(old(image), number, page);
      forall k: nat
        ensures k >= length ==> k / PAGE != number - 1
        ensures Stored(parent, parentLimit, pages, k) ==
          if k / PAGE == number - 1 then page[k % PAGE] else Stored(parent, parentLimit, old(pages), k)
      {
      }
      ok := true;
    }

    // truncate, to any length: shrinking forgets, growing shows zeros.
    method SetLength(len: nat)
      requires Valid() && len <= U64_MAX
      modifies this
      ensures Valid()
      ensures image == Applied(old(image), Truncate(len)) && failed == old(failed)
      ensures |image| == length == len
      ensures forall k :: 0 <= k < len ==> image[k] == if k < |old(image)| then old(image)[k] else 0
    {
      if len < length {
        if len % PAGE != 0 {
          var page := new byte[PAGE];
          var _ := ReadAt(len / PAGE * PAGE, page);
          forall i | len % PAGE <= i < PAGE {
            page[i] := 0;
          }
          pages := pages[len / PAGE := page[..]];
        }
        var keep := (len + PAGE - 1) / PAGE;
        pages := map i | i in pages && i < keep :: pages[i];
        parentLimit := if parentLimit < len then parentLimit else len;
        CutStored(parent, old(parentLimit), old(pages), pages, len);
      }
      length := len;
      image := Resized(image, len);
    }

    // write_pages: consecutive pages; stops at the first rejected one.
    method WritePages(first: nat, buffers: seq<Bytes>) returns (ok: bool)
      requires Valid()
      modifies this
      ensures Valid()
      ensures ok ==> image == Run(old(image), Writes(first, buffers)) && failed == old(failed)
      ensures !ok ==> failed
      ensures ok <==> forall i :: 0 <= i < |buffers| ==> Accepted(Write(first + i, buffers[i]))
    {
      hide Valid, Applied, Run;
      var i := 0;
      RunNothing(image, first, buffers[..0]);
      while i < |buffers|
        invariant 0 <= i <= |buffers| && Valid() && failed == old(failed)
        invariant image == Run(old(image), Writes(first, buffers[..i]))
        invariant forall j :: 0 <= j < i ==> Accepted(Write(first + j, buffers[j]))
      {
        var accepted := WritePage(first + i, buffers[i]);
        if !accepted {
          return false;
        }
        RunStep(old(image), first, buffers, i);
        i := i + 1;
      }
      assert buffers[..i] == buffers;
      ok := true;
    }

    // One page compared with the parent: its bytes, if they differ.
    method ComparePage(index: nat) returns (r: Option<Bytes>)
      requires Valid() && length % PAGE == 0 && index * PAGE < length
      ensures (index + 1) * PAGE <= length
      ensures r == if SamePage(parent, image, index + 1) then None else Some(Page(image, index + 1))
    {
      var buffer := new byte[PAGE];
      var _ := ReadAt(index * PAGE, buffer);
      var page := buffer[..];
      assert page == Page(image, index + 1);
      if (index + 1) * PAGE <= |parent| && parent[index * PAGE..(index + 1) * PAGE] == page {
        r := None;
      } else {
        r := Some(page);
      }
    }

    // close_and_freeze: compares only the pages that were touched or lie past the
    // parent limit, and still finds every page that differs from the parent.
    method Freeze() returns (r: Result<Frozen>)
      requires Valid()
      ensures r == if failed || length % PAGE != 0 then Err(Invalid)
                   else Ok(Frozen(parent, length, Difference(parent, image)))
    {
      if failed || length % PAGE != 0 {
        return Err(Invalid);
      }
      assert |image| == length;
      hide SamePage, Page, Stored, Valid, Difference;
      ghost var wanted := Difference(parent, image);
      var touched := pages.Keys + Between(parentLimit / PAGE, (length + PAGE - 1) / PAGE);
      var changed: map<nat, Bytes> := map[];
      var left := touched;
      while left != {}
        invariant left <= touched
        invariant forall n :: n in changed ==> n in wanted && changed[n] == wanted[n]
        invariant forall n :: n in wanted && n - 1 in touched - left ==> n in changed
      {
        var index :| index in left;
        left := left - {index};
        if index * PAGE < length {
          var different := ComparePage(index);
          DifferenceAt(parent, image, index + 1);
          if different.Some? {
            changed := changed[index + 1 := different.value];
          }
        }
      }
      forall n | n in wanted
        ensures n in changed
      {
        DifferenceAt(parent, image, n);
        if n - 1 !in touched {
          Untouched(n);
        }
      }
      assert changed == wanted;
      r := Ok(Frozen(parent, length, changed));
    }

    // A page that was not written and lies below the parent limit is the parent's.
    lemma Untouched(n: nat)
      requires Valid() && 0 < n && n * PAGE <= length
      requires n - 1 !in pages && n - 1 < parentLimit / PAGE
      ensures SamePage(parent, image, n)
    {
      forall j | 0 <= j < PAGE
        ensures Page(image, n)[j] == Page(parent, n)[j]
      {
        assert image[(n - 1) * PAGE + j] == Stored(parent, parentLimit, pages, (n - 1) * PAGE + j);
      }
    }
  }

  lemma DifferenceAt(parent: Bytes, image: Bytes, n: nat)
    requires |image| % PAGE == 0
    ensures n in Difference(parent, image) <==> 0 < n && n * PAGE <= |image| && !SamePage(parent, image, n)
    ensures n in Difference(parent, image) ==> Difference(parent, image)[n] == Page(image, n)
  {
    hide SamePage;
  }

  function Writes(first: nat, buffers: seq<Bytes>): (ops: seq<Op>)
    ensures |ops| == |buffers|
  {
    seq(|buffers|, i requires 0 <= i < |buffers| => Write(first + i, buffers[i]))
  }

  lemma RunNothing(image: Bytes, first: nat, buffers: seq<Bytes>)
    requires buffers == []
    ensures Run(image, Writes(first, buffers)) == image
  {
  }

  lemma RunStep(image: Bytes, first: nat, buffers: seq<Bytes>, i: nat)
    requires i < |buffers|
    ensures Run(image, Writes(first, buffers[..i + 1]))
         == Applied(Run(image, Writes(first, buffers[..i])), Write(first + i, buffers[i]))
  {
    hide Applied;
    assert Writes(first, buffers[..i + 1])[..i] == Writes(first, buffers[..i]);
  }

  function Between(lo: nat, hi: nat): (s: set<nat>)
    ensures forall i :: i in s <==> lo <= i < hi
    decreases hi
  {
    if hi <= lo then {} else Between(lo, hi - 1) + {hi - 1}
  }

  // ----- Materializing a frozen image ---------------------------------------------

  predicate ValidFrozen(f: Frozen) {
    forall n :: n in f.changed ==> 0 < n && n * PAGE <= f.length && |f.changed[n]| == PAGE
  }

  // The parent's bytes, zero beyond it, with the given pages on top.
  function Layered(parent: Bytes, changed: map<nat, Bytes>, k: nat): byte
    requires forall n :: n in changed ==> |changed[n]| == PAGE
  {
    if k / PAGE + 1 in changed then changed[k / PAGE + 1][k % PAGE]
    else if k < |parent| then parent[k] else 0
  }

  method Materialize(f: Frozen) returns (bytes: Bytes)
    requires ValidFrozen(f)
    ensures |bytes| == f.length
    ensures forall k :: 0 <= k < f.length ==> bytes[k] == Layered(f.parent, f.changed, k)
  {
    var buffer := new byte[f.length](_ => 0);
    var copied := if |f.parent| < f.length then |f.parent| else f.length;
    forall k | 0 <= k < copied {
      buffer[k] := f.parent[k];
    }
    var left := f.changed.Keys;
    while left != {}
      invariant left <= f.changed.Keys
      invariant forall k :: 0 <= k < f.length ==>
        buffer[k] == if k / PAGE + 1 in f.changed && k / PAGE + 1 !in left then f.changed[k / PAGE + 1][k % PAGE]
                     else if k < |f.parent| then f.parent[k] else 0
    {
      var n :| n in left;
      left := left - {n};
      var start := (n - 1) * PAGE;
      forall i | 0 <= i < PAGE {
        buffer[start + i] := f.changed[n][i];
      }
      forall k | 0 <= k < f.length && k / PAGE + 1 == n
        ensures buffer[k] == f.changed[n][k % PAGE]
      {
        assert k == start + k % PAGE;
      }
    }
    bytes := buffer[..];
  }

  // Materializing the difference between an image and its parent gives the image back.
  lemma DifferenceMaterializes(parent: Bytes, image: Bytes)
    requires |image| % PAGE == 0
    ensures ValidFrozen(Frozen(parent, |image|, Difference(parent, image)))
    ensures forall k :: 0 <= k < |image| ==> Layered(parent, Difference(parent, image), k) == image[k]
  {
    var changed := Difference(parent, image);
    forall k | 0 <= k < |image|
      ensures Layered(parent, changed, k) == image[k]
    {
      var n := k / PAGE + 1;
      assert n * PAGE <= |image|;
      PageByte(image, k);
      if n !in changed {
        assert SamePage(parent, image, n);
        PageByte(parent, k);
      }
    }
  }

  lemma SamePageIndex(pos: nat, i: nat)
    requires pos % PAGE + i < PAGE
    ensures (pos + i) / PAGE == pos / PAGE && (pos + i) % PAGE == pos % PAGE + i
  {
  }

  lemma WrittenBytes(image: Bytes, number: nat, page: Bytes)
    requires number > 0 && |page| == PAGE
    ensures var r := Written(image, number, page);
      forall k :: 0 <= k < |r| ==>
        r[k] == if k / PAGE == number - 1 then page[k % PAGE] else if k < |image| then image[k] else 0
  {
  }

  // Below `len` a cut overlay stores what it stored; from `len` on it stores zeros.
  lemma CutStored(parent: Bytes, limit: nat, pages: map<nat, Bytes>, cut: map<nat, Bytes>, len: nat)
    requires limit <= |parent| && forall i :: i in pages ==> |pages[i]| == PAGE
    requires forall i :: i in cut ==> |cut[i]| == PAGE && i < (len + PAGE - 1) / PAGE
    requires forall i :: 0 <= i < len / PAGE ==> (i in cut <==> i in pages) && (i in cut ==> cut[i] == pages[i])
    requires len % PAGE != 0 ==> len / PAGE in cut && forall j :: 0 <= j < PAGE ==>
      cut[len / PAGE][j] == if j < len % PAGE then Stored(parent, limit, pages, len / PAGE * PAGE + j) else 0
    ensures var limit' := if limit < len then limit else len;
      && (forall k :: 0 <= k < len ==> Stored(parent, limit', cut, k) == Stored(parent, limit, pages, k))
      && (forall k :: k >= len ==> Stored(parent, limit', cut, k) == 0)
  {
    var limit' := if limit < len then limit else len;
    forall k | 0 <= k < len
      ensures Stored(parent, limit', cut, k) == Stored(parent, limit, pages, k)
    {
      if k / PAGE == len / PAGE {
        assert k == len / PAGE * PAGE + k % PAGE && len % PAGE != 0;
      } else {
        assert k / PAGE < len / PAGE;
      }
    }
    forall k: nat | k >= len
      ensures Stored(parent, limit', cut, k) == 0
    {
      if k / PAGE in cut {
        assert k / PAGE == len / PAGE && len % PAGE != 0;
      }
    }
  }
}
