/** A file read a page at a time, and views that do not tell it from a buffer in memory. */
module Paging {
  import opened Bytes

  const PAGE: nat := 0x1_0000
  const STEP: nat := 4096

  function Min(a: nat, b: nat): nat {
    if a < b then a else b
  }

  function Max(a: nat, b: nat): nat {
    if a < b then b else a
  }

  function PageStart(index: nat): nat {
    index * PAGE
  }

  /** The page holds some byte of the range. */
  predicate Touches(offset: nat, length: nat, index: nat) {
    length > 0 && PageStart(index) < offset + length && offset < PageStart(index) + PAGE
  }

  predicate HasPage(file: Buffer, index: nat) {
    PageStart(index) < |file|
  }

  /** A page; the last one may be short. */
  function PageOf(file: Buffer, index: nat): (p: Buffer)
    requires HasPage(file, index)
    ensures |p| == Min(PAGE, |file| - PageStart(index))
  {
    file[PageStart(index)..Min(PageStart(index) + PAGE, |file|)]
  }

  /** A part of a page is that part of the file. */
  lemma {:induction false} PagePart(file: Buffer, index: nat, from: nat, to: nat)
    requires HasPage(file, index) && from <= to <= |PageOf(file, index)|
    ensures PageOf(file, index)[from..to] == file[PageStart(index) + from..PageStart(index) + to]
  {
  }

  /** Where a page starts, compared with an offset inside it. */
  lemma {:induction false} InPage(offset: nat)
    ensures PageStart(offset / PAGE) <= offset < PageStart(offset / PAGE) + PAGE
    ensures PageStart(offset / PAGE + 1) == PageStart(offset / PAGE) + PAGE
  {
  }

  lemma {:induction false} PageOrder(a: nat, b: nat)
    requires a < b
    ensures PageStart(a) + PAGE <= PageStart(b)
  {
  }

  lemma {:induction false} TouchesIs(offset: nat, length: nat, i: nat)
    requires length > 0
    ensures Touches(offset, length, i) <==> offset / PAGE <= i <= (offset + length - 1) / PAGE
  {
    var last := offset + length - 1;
    InPage(last);
    InPage(offset);
    if i > last / PAGE { PageOrder(last / PAGE, i); }
    else if i < last / PAGE { PageOrder(i, last / PAGE); }
    if i < offset / PAGE { PageOrder(i, offset / PAGE); }
    else if i > offset / PAGE { PageOrder(offset / PAGE, i); }
  }

  /** How much of a range lies before a page. */
  function Reach(offset: nat, length: nat, index: nat): (n: nat)
    ensures n <= length
  {
    Min(offset + length, Max(offset, PageStart(index))) - offset
  }

  lemma {:induction false} ReachEnds(offset: nat, length: nat)
    requires length > 0
    ensures offset / PAGE <= (offset + length - 1) / PAGE
    ensures Reach(offset, length, offset / PAGE) == 0
    ensures Reach(offset, length, (offset + length - 1) / PAGE + 1) == length
  {
    InPage(offset);
    InPage(offset + length - 1);
  }

  /** The bytes of a range that lie before a page. */
  function Before(file: Buffer, offset: nat, length: nat, index: nat): Buffer
    requires offset + length <= |file|
  {
    file[offset..offset + Reach(offset, length, index)]
  }

  lemma {:induction false} SlicesMeet(file: Buffer, a: nat, b: nat, c: nat)
    requires a <= b <= c <= |file|
    ensures file[a..b] + file[b..c] == file[a..c]
  {
  }

  /** Where in a page the bytes a range asks for begin and end. */
  function From(offset: nat, index: nat): nat {
    Max(offset, PageStart(index)) - PageStart(index)
  }

  function To(offset: nat, length: nat, index: nat): int {
    Min(offset + length, PageStart(index) + PAGE) - PageStart(index)
  }

  lemma {:induction false} PieceReach(offset: nat, length: nat, index: nat, size: nat)
    requires offset + length <= size && Touches(offset, length, index)
    ensures PageStart(index) < size && From(offset, index) <= To(offset, length, index) <= Min(PAGE, size - PageStart(index))
    ensures PageStart(index) + From(offset, index) == offset + Reach(offset, length, index)
    ensures PageStart(index) + To(offset, length, index) == offset + Reach(offset, length, index + 1)
    ensures Reach(offset, length, index) <= Reach(offset, length, index + 1)
  {
  }

  /** The part of a page that continues a range. */
  lemma {:induction false} PieceContinues(file: Buffer, offset: nat, length: nat, index: nat)
    requires offset + length <= |file| && Touches(offset, length, index)
    ensures HasPage(file, index) && From(offset, index) <= To(offset, length, index) <= |PageOf(file, index)|
    ensures Before(file, offset, length, index) + PageOf(file, index)[From(offset, index)..To(offset, length, index)]
         == Before(file, offset, length, index + 1)
  {
    PieceReach(offset, length, index, |file|);
    var m, n := offset + Reach(offset, length, index), offset + Reach(offset, length, index + 1);
    assert PageOf(file, index)[From(offset, index)..To(offset, length, index)] == file[m..n] by {
      PagePart(file, index, From(offset, index), To(offset, length, index));
    }
    SlicesMeet(file, offset, m, n);
  }

  /** A range within one page. */
  lemma {:induction false} PieceIsAll(file: Buffer, offset: nat, length: nat, index: nat)
    requires offset + length <= |file| && length > 0 && index == offset / PAGE == (offset + length - 1) / PAGE
    ensures Touches(offset, length, index) && HasPage(file, index)
    ensures offset - PageStart(index) >= 0 && offset - PageStart(index) + length <= |PageOf(file, index)|
    ensures PageOf(file, index)[offset - PageStart(index)..offset - PageStart(index) + length] == file[offset..offset + length]
    ensures forall i: nat :: Touches(offset, length, i) ==> i == index
  {
    InPage(offset);
    InPage(offset + length - 1);
    PagePart(file, index, offset - PageStart(index), offset + length - PageStart(index));
    forall i: nat ensures Touches(offset, length, i) ==> i == index { TouchesIs(offset, length, i); }
  }

  class PagedFile {
    const file: Buffer
    var pages: map<nat, Buffer>
    var joined: seq<Buffer>
    /** Every page the system supplied, in order. */
    ghost var supplied: seq<nat>

    ghost predicate Valid()
      reads this
    {
      && (forall i :: i in pages ==> HasPage(file, i) && pages[i] == PageOf(file, i))
      && (forall i :: i in supplied <==> i in pages)
      && (forall j, k :: 0 <= j < k < |supplied| ==> supplied[j] != supplied[k])
    }

    constructor (file: Buffer)
      ensures Valid() && this.file == file && pages == map[] && supplied == [] && joined == []
    {
      this.file := file;
      pages, joined, supplied := map[], [], [];
    }

    /** The system may fail to supply any page at any time. */
    method ReadAt(start: nat, length: nat) returns (r: Option<Buffer>)
      requires start + length <= |file|
      ensures r.Some? ==> r.value == file[start..start + length]
    {
      if * {
        r := None;
      } else {
        r := Some(file[start..start + length]);
      }
    }

    method Page(index: nat) returns (r: Option<Buffer>)
      requires Valid() && HasPage(file, index)
      modifies this`pages, this`supplied
      ensures Valid()
      ensures r.Some? ==> r.value == PageOf(file, index)
      ensures pages.Keys == old(pages.Keys) + (if r.Some? then {index} else {})
      ensures supplied == old(supplied) + (if r.Some? && index !in old(pages) then [index] else [])
    {
      if index in pages { return Some(pages[index]); }
      var start := PageStart(index);
      var length := Min(PAGE, |file| - start);
      var bytes := ReadAt(start, length);
      if bytes.None? { return None; }
      pages := pages[index := bytes.value];
      supplied := supplied + [index];
      r := Some(bytes.value);
    }

    /** The bytes of one page that a range asks for: how the range's next bytes are found. */
    method Piece(offset: nat, length: nat, index: nat) returns (r: Option<Buffer>)
      requires Valid() && offset + length <= |file| && Touches(offset, length, index)
      modifies this`pages, this`supplied
      ensures Valid()
      ensures r.Some? ==> Before(file, offset, length, index) + r.value == Before(file, offset, length, index + 1)
      ensures pages.Keys == old(pages.Keys) + (if r.Some? then {index} else {})
    {
      PieceContinues(file, offset, length, index);
      var page := Page(index);
      if page.None? { return None; }
      r := Some(page.value[From(offset, index)..To(offset, length, index)]);
    }

    /** A range that crosses a page boundary, copied together. */
    method Together(offset: nat, length: nat, first: nat, last: nat) returns (r: Option<Buffer>)
      requires Valid() && offset + length <= |file| && first <= last
      requires Reach(offset, length, first) == 0 && Reach(offset, length, last + 1) == length
      requires forall i: nat :: Touches(offset, length, i) <==> first <= i <= last
      modifies this`pages, this`supplied
      ensures Valid()
      ensures r.Some? ==> r.value == file[offset..offset + length]
      ensures forall i :: i in old(pages) ==> i in pages
      ensures forall i :: i in pages ==> i in old(pages) || Touches(offset, length, i)
      ensures r.Some? ==> forall i: nat :: Touches(offset, length, i) ==> i in pages
    {
      var together: Buffer := [];
      var index := first;
      while index <= last
        invariant first <= index <= last + 1
        invariant Valid()
        invariant forall i :: i in pages <==> i in old(pages) || first <= i < index
        invariant together == Before(file, offset, length, index)
      {
        var piece := Piece(offset, length, index);
        if piece.None? { return None; }
        together := together + piece.value;
        index := index + 1;
      }
      r := Some(together);
    }

    /** The file's bytes at a range, each page of it read at most once in the life of the object, and only the
        pages that hold some byte of a range asked for. */
    method Ensure(offset: nat, length: nat) returns (r: Option<Buffer>)
      requires Valid() && offset + length <= |file|
      modifies this
      ensures Valid()
      ensures r.Some? ==> r.value == file[offset..offset + length]
      ensures old(joined) <= joined
      ensures forall i :: i in old(pages) ==> i in pages
      ensures forall i :: i in pages ==> i in old(pages) || Touches(offset, length, i)
      ensures r.Some? ==> forall i: nat :: Touches(offset, length, i) ==> i in pages
    {
      if length == 0 { return Some([]); }
      var first := offset / PAGE;
      var last := (offset + length - 1) / PAGE;
      if first == last {
        PieceIsAll(file, offset, length, first);
        var page := Page(first);
        if page.None? { return None; }
        return Some(page.value[offset - PageStart(first)..offset - PageStart(first) + length]);
      }
      forall i: nat ensures Touches(offset, length, i) <==> first <= i <= last { TouchesIs(offset, length, i); }
      ReachEnds(offset, length);
      r := Together(offset, length, first, last);
      if r.Some? { joined := joined + [r.value]; }
    }
  }
}
