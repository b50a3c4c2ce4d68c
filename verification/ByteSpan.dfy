/** Checked views of a byte range, of a buffer or of a file read a page at a time. Every answer is a function of
    the bytes of the view alone. */
module ByteSpan {
  import opened Bytes
  import opened Paging

  lemma {:induction false} SliceOfSlice(s: Buffer, base: nat, length: nat, offset: nat, count: nat)
    requires base + length <= |s| && offset + count <= length
    ensures s[base..base + length][offset..offset + count] == s[base + offset..base + offset + count]
  {
    var inner, outer := s[base..base + length][offset..offset + count], s[base + offset..base + offset + count];
    assert |inner| == |outer| == count;
    forall i | 0 <= i < count ensures inner[i] == outer[i] {
      assert inner[i] == s[base..base + length][offset + i] == s[base + offset + i];
    }
  }

  datatype Span = InMemory(bytes: Buffer) | OfFile(paged: PagedFile, base: nat, length: nat) {
    ghost predicate Valid()
      reads Repr()
    {
      OfFile? ==> paged.Valid() && base + length <= |paged.file|
    }

    function Repr(): set<object> {
      if OfFile? then {paged} else {}
    }

    function Size(): nat {
      if InMemory? then |bytes| else length
    }

    /** The bytes the view stands for. */
    ghost function View(): (v: Buffer)
      requires OfFile? ==> base + length <= |paged.file|
      ensures |v| == Size()
    {
      if InMemory? then bytes else paged.file[base..base + length]
    }

    /** The bytes at a range of the view; None when the system cannot supply a page. */
    method At(offset: nat, count: nat) returns (r: Option<Buffer>)
      requires Valid() && offset + count <= Size()
      modifies Repr()
      ensures Valid()
      ensures InMemory? ==> r.Some?
      ensures r.Some? ==> r.value == View()[offset..offset + count]
    {
      if OfFile? {
        SliceOfSlice(paged.file, base, length, offset, count);
        r := paged.Ensure(base + offset, count);
      } else {
        r := Some(bytes[offset..offset + count]);
      }
    }

    /** A part of the view; nothing is read. */
    function Sub(offset: nat, count: nat): (r: Option<Span>)
      ensures r.Some? <==> offset + count <= Size()
    {
      if !RangeFits(offset, count, Size()) then None
      else if InMemory? then Some(InMemory(bytes[offset..offset + count]))
      else Some(OfFile(paged, base + offset, count))
    }
  }

  /** A part of a view is that part of its bytes, over a buffer and over a file alike. */
  lemma {:induction false} SubViews(s: Span, offset: nat, count: nat)
    requires s.OfFile? ==> s.base + s.length <= |s.paged.file|
    requires offset + count <= s.Size()
    ensures var r := s.Sub(offset, count);
      && r.Some? && (r.value.OfFile? ==> r.value.base + r.value.length <= |r.value.paged.file|)
      && r.value.View() == s.View()[offset..offset + count]
  {
    if s.OfFile? {
      SliceOfSlice(s.paged.file, s.base, s.length, offset, count);
    }
  }

  /** Where the first NUL of a range is, or the end of the range. */
  function FirstNul(s: Buffer, from: nat, end: nat): (k: nat)
    requires from <= end <= |s|
    ensures from <= k <= end && (k < end ==> s[k] == 0)
    ensures forall i :: from <= i < k ==> s[i] != 0
    decreases end - from
  {
    if from == end || s[from] == 0 then from else FirstNul(s, from + 1, end)
  }

  /** The range up to a point holds no NUL. */
  ghost predicate Clear(view: Buffer, from: nat, to: nat)
    requires to <= |view|
  {
    forall i :: from <= i < to ==> view[i] != 0
  }

  lemma {:induction false} FirstNulIs(s: Buffer, from: nat, end: nat, k: nat)
    requires from <= k <= end <= |s| && (k < end ==> s[k] == 0) && Clear(s, from, k)
    ensures FirstNul(s, from, end) == k
  {
    var n := FirstNul(s, from, end);
    assert !(n < k) && !(k < n);
  }

  datatype Text = Text(value: Buffer) | Outside | TooLong | Unterminated

  /** The string at an offset of a view, or why there is none. */
  function StringAt(view: Buffer, offset: nat, maxLength: nat): Text {
    if offset >= |view| then Outside
    else
      var limit := Min(maxLength, |view| - offset);
      var k := FirstNul(view, offset, offset + limit);
      if k < offset + limit then Text(view[offset..k])
      else if maxLength < |view| - offset then TooLong
      else Unterminated
  }

  /** A string is found exactly when its bytes, none of them NUL, and a NUL follow the offset within the view and
      within the length allowed. */
  lemma {:induction false} StringMeans(view: Buffer, offset: nat, maxLength: nat, text: Buffer)
    ensures StringAt(view, offset, maxLength) == Text(text) <==>
      && |text| < maxLength && offset + |text| < |view|
      && view[offset..offset + |text|] == text && 0 !in text && view[offset + |text|] == 0
  {
    if offset < |view| {
      var limit := Min(maxLength, |view| - offset);
      var k := FirstNul(view, offset, offset + limit);
      if |text| < limit && view[offset..offset + |text|] == text && 0 !in text && view[offset + |text|] == 0 {
        forall i | offset <= i < offset + |text| ensures view[i] != 0 { assert view[i] == text[i - offset]; }
        assert Clear(view, offset, offset + |text|);
        FirstNulIs(view, offset, offset + limit, offset + |text|);
      }
      if k < offset + limit && view[offset..k] == text {
        forall i | 0 <= i < |text| ensures text[i] != 0 { assert text[i] == view[offset + i]; }
      }
    }
  }

  /** The position of the first NUL, or the length. */
  method Scan(start: Buffer) returns (i: nat)
    ensures i <= |start| && (i < |start| ==> start[i] == 0)
    ensures Clear(start, 0, i)
  {
    i := 0;
    while i < |start|
      invariant i <= |start| && Clear(start, 0, i)
    {
      if start[i] == 0 { return; }
      i := i + 1;
    }
  }

  /** The first bytes at an offset. */
  function Head(view: Buffer, offset: nat, n: nat): Buffer
    requires offset + n <= |view|
  {
    view[offset..offset + n]
  }

  lemma {:induction false} ClearStep(view: Buffer, offset: nat, done: nat, step: nat, start: Buffer, i: nat)
    requires offset + done + step <= |view| && i <= step && Clear(view, offset, offset + done)
    requires start == view[offset + done..offset + done + step] && Clear(start, 0, i)
    ensures Clear(view, offset, offset + done + i)
    ensures i < step ==> view[offset + done + i] == start[i]
    ensures Head(view, offset, done) + start[..i] == Head(view, offset, done + i)
  {
    forall k | offset <= k < offset + done + i ensures view[k] != 0 {
      if k >= offset + done { assert view[k] == start[k - offset - done]; }
    }
  }

  /** One step of the search for the NUL: the bytes looked at and where in them it is. */
  method SearchStep(s: Span, offset: nat, done: nat, step: nat) returns (start: Option<Buffer>, i: nat)
    requires s.Valid() && offset + done + step <= s.Size() && Clear(s.View(), offset, offset + done)
    modifies s.Repr()
    ensures s.Valid() && (s.InMemory? ==> start.Some?)
    ensures start.Some? ==>
      && |start.value| == step
      && i <= step && Clear(s.View(), offset, offset + done + i)
      && (i < step ==> s.View()[offset + done + i] == 0)
      && Head(s.View(), offset, done) + start.value[..i] == Head(s.View(), offset, done + i)
  {
    i := 0;
    start := s.At(offset + done, step);
    if start.Some? {
      i := Scan(start.value);
      ClearStep(s.View(), offset, done, step, start.value, i);
    }
  }

  lemma {:induction false} StringFound(view: Buffer, offset: nat, maxLength: nat, n: nat)
    requires offset + n < |view| && n < maxLength && Clear(view, offset, offset + n) && view[offset + n] == 0
    ensures StringAt(view, offset, maxLength) == Text(Head(view, offset, n))
  {
    FirstNulIs(view, offset, offset + Min(maxLength, |view| - offset), offset + n);
  }

  lemma {:induction false} StringMissing(view: Buffer, offset: nat, maxLength: nat)
    requires offset < |view| && Clear(view, offset, offset + Min(maxLength, |view| - offset))
    ensures StringAt(view, offset, maxLength) == if maxLength < |view| - offset then TooLong else Unterminated
  {
    FirstNulIs(view, offset, offset + Min(maxLength, |view| - offset), offset + Min(maxLength, |view| - offset));
  }

  lemma {:induction false} NothingYet(view: Buffer, offset: nat)
    requires offset <= |view|
    ensures Clear(view, offset, offset) && Head(view, offset, 0) == []
  {
  }

  /** Reads a string, in memory by one pass, over a file in steps of bounded size. Both give what the bytes of the view
      say, and a buffer never fails. */
  method CString(s: Span, offset: nat, maxLength: nat) returns (r: Option<Text>)
    requires s.Valid()
    modifies s.Repr()
    ensures s.Valid()
    ensures s.InMemory? ==> r.Some?
    ensures r.Some? ==> r.value == StringAt(s.View(), offset, maxLength)
  {
    hide Clear, FirstNul, Head;
    if offset >= s.Size() { return Some(Outside); }
    ghost var view := s.View();
    var available := s.Size() - offset;
    var limit := if maxLength < available then maxLength else available;
    var text: Buffer := [];
    var done: nat := 0;
    NothingYet(view, offset);
    while done < limit
      invariant done <= limit && s.Valid() && Clear(view, offset, offset + done)
      invariant s.InMemory? ==> done == 0 || done == limit
      invariant done < limit ==> text == Head(view, offset, done)
    {
      var step := if s.InMemory? then limit else Min(limit - done, STEP);
      var start, i := SearchStep(s, offset, done, step);
      if start.None? { return None; }
      if i < step {
        StringFound(view, offset, maxLength, done + i);
        return Some(Text(text + start.value[..i]));
      }
      if s.OfFile? { text := text + start.value[..i]; }
      done := done + step;
    }
    StringMissing(view, offset, maxLength);
    if limit == maxLength && maxLength < available { return Some(TooLong); }
    r := Some(Unterminated);
  }
}
