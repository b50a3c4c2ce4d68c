/** Assembling over a file that was just assembled, and signing a universal file again: only the last programs count. */
module MachOReassemble {
  import opened Bytes
  import opened MachOLayout
  import opened MachOPlan
  import opened MachOUniversal
  import opened MachOAssemble

  // ── Places ─────────────────────────────────────────────────

  /** Putting other programs into the new file, and into the old one. */
  ghost predicate Twice(t: Table, slices: seq<Buffer>, others: seq<Buffer>) {
    && |t.entries| == |slices| == |others| > 0
    && Order(NewTable(t, slices).entries) == Order(t.entries)
  }

  function OverNew(t: Table, slices: seq<Buffer>, others: seq<Buffer>): Job
    requires |t.entries| == |slices| > 0
  {
    JobOf(NewTable(t, slices), others)
  }

  lemma {:induction false} BothValid(t: Table, slices: seq<Buffer>, others: seq<Buffer>)
    requires Twice(t, slices, others)
    ensures JobOf(t, slices).Valid() && JobOf(t, others).Valid() && OverNew(t, slices, others).Valid()
    ensures Lists(Order(t.entries), |t.entries|)
  {
    JobIsValid(t, slices);
    JobIsValid(t, others);
    JobIsValid(NewTable(t, slices), others);
  }

  lemma {:induction false} EntryOverNew(t: Table, slices: seq<Buffer>, others: seq<Buffer>, j: nat)
    requires Twice(t, slices, others) && j < |slices|
    ensures JobOf(t, slices).Valid() && JobOf(t, others).Valid() && OverNew(t, slices, others).Valid()
    ensures OverNew(t, slices, others).EntryIn(j)
         == JobOf(t, others).EntryIn(j).(offset := JobOf(t, slices).Place(j), size := |JobOf(t, slices).SliceIn(j)|)
  {
    hide Order, NewTable, AlignUp, Pow2;
    BothValid(t, slices, others);
    NewEntry(t, slices, j);
  }

  /** Every program goes where it goes in the old file. */
  lemma {:induction false} SamePlace(t: Table, slices: seq<Buffer>, others: seq<Buffer>, j: nat)
    requires Twice(t, slices, others) && j < |slices|
    ensures JobOf(t, others).Valid() && OverNew(t, slices, others).Valid()
    ensures OverNew(t, slices, others).Place(j) == JobOf(t, others).Place(j)
    ensures OverNew(t, slices, others).Cursor(j + 1) == JobOf(t, others).Cursor(j + 1)
  {
    hide Order, NewTable, Pow2;
    BothValid(t, slices, others);
    EntryOverNew(t, slices, others, j);
    if j == 0 {
      EntryOverNew(t, slices, others, 0);
      AlignedUp(JobOf(t, slices).Cursor(0), Pow2(JobOf(t, slices).EntryIn(0).align));
      AlignedUp(JobOf(t, slices).Place(0), Pow2(JobOf(t, slices).EntryIn(0).align));
    } else {
      SamePlace(t, slices, others, j - 1);
    }
  }

  lemma {:induction false} SameOffsets(t: Table, slices: seq<Buffer>, others: seq<Buffer>, j: nat, wide: bool)
    requires Twice(t, slices, others) && j <= |slices|
    ensures JobOf(t, others).Valid() && OverNew(t, slices, others).Valid()
    ensures OverNew(t, slices, others).Offsets(j) == JobOf(t, others).Offsets(j)
    ensures OverNew(t, slices, others).Placeable(wide, j) == JobOf(t, others).Placeable(wide, j)
  {
    hide Order, NewTable, AlignUp, Pow2;
    BothValid(t, slices, others);
    if j > 0 {
      SameOffsets(t, slices, others, j - 1, wide);
      SamePlace(t, slices, others, j - 1);
      EntryOverNew(t, slices, others, j - 1);
    }
  }

  /** The programs of the new file end where its cursor does. */
  lemma {:induction false} NewOldEnd(t: Table, slices: seq<Buffer>, others: seq<Buffer>, j: nat)
    requires Twice(t, slices, others) && 0 < j <= |slices|
    ensures OverNew(t, slices, others).Valid() && JobOf(t, slices).Valid()
    ensures OverNew(t, slices, others).OldEnd(j) == JobOf(t, slices).Cursor(j)
  {
    hide Order, NewTable, AlignUp, Pow2;
    BothValid(t, slices, others);
    EntryOverNew(t, slices, others, j - 1);
    PlaceAligned(JobOf(t, slices), j - 1);
    if j > 1 { NewOldEnd(t, slices, others, j - 1); }
  }

  lemma {:induction false} OldEndSame(t: Table, slices: seq<Buffer>, others: seq<Buffer>, j: nat)
    requires Twice(t, slices, others) && j <= |slices|
    ensures JobOf(t, slices).Valid() && JobOf(t, others).Valid()
    ensures JobOf(t, slices).OldEnd(j) == JobOf(t, others).OldEnd(j)
  {
    hide Order, NewTable, AlignUp, Pow2;
    BothValid(t, slices, others);
    if j > 0 { OldEndSame(t, slices, others, j - 1); }
  }

  // ── Bytes ──────────────────────────────────────────────────

  /** The same but for the table. */
  ghost predicate SameAround(x: Buffer, y: Buffer, end: nat) {
    |x| == |y| && 8 <= end <= |x| && x[..8] == y[..8] && x[end..] == y[end..]
  }

  lemma {:induction false} AroundMore(x: Buffer, y: Buffer, end: nat, z: Buffer)
    requires SameAround(x, y, end)
    ensures SameAround(x + z, y + z, end)
  {
    assert (x + z)[..8] == x[..8] && (y + z)[..8] == y[..8];
    assert (x + z)[end..] == x[end..] + z && (y + z)[end..] == y[end..] + z;
  }

  /** The file in front of the first program. */
  lemma {:induction false} BodyFront(job: Job, file: Buffer, n: nat)
    requires job.Valid() && 0 < n <= |job.order| && job.EntryIn(0).offset <= |file|
    ensures job.EntryIn(0).offset <= job.Place(0) <= |job.Body(file, n)|
    ensures job.Body(file, n)[..job.Place(0)] == file[..job.EntryIn(0).offset] + Zeros(job.Place(0) - job.EntryIn(0).offset)
  {
    hide AlignUp, Pow2, Zeros;
    PlaceAligned(job, 0);
    if n > 1 {
      BodyFront(job, file, n - 1);
      CursorGrows(job, 1, n - 1);
      BodyKeeps(job, file, n, 0, job.Place(0));
    }
  }

  /** So the new file begins, but for its table. */
  lemma {:induction false} NewFront(file: Buffer, t: Table, slices: seq<Buffer>, out: Buffer)
    requires Assembled(file, t, slices, out)
    ensures JobOf(t, slices).Valid()
    ensures var job := JobOf(t, slices); var first, place := job.EntryIn(0).offset, job.Place(0);
      && first <= |file| && first <= place <= |out|
      && SameAround(out[..place], file[..first] + Zeros(place - first), TableEnd(t.wide, |slices|))
  {
    hide ParseTable, Order, AlignUp, Pow2, AssembleUniversal, Retabled, FieldsFit, Zeros;
    JobIsValid(t, slices);
    AssembledIs(file, t, slices, out);
    AllFieldsFit(file, t, slices);
    var job, n, p, end := JobOf(t, slices), |slices|, Placed(file, t, slices), TableEnd(t.wide, |slices|);
    var first, place := job.EntryIn(0).offset, job.Place(0);
    BodyFront(job, file, n);
    SliceOfPrefix(job.Body(file, n), file[job.OldEnd(n)..], 0, place);
    assert p[..place] == file[..first] + Zeros(place - first);
    hide Placed, Fits, TableEnd;
    TableLeast(t.wide, n);
    RetabledApart(p, t.wide, job.Offsets(n), slices, n, 0, 8);
    RetabledApart(p, t.wide, job.Offsets(n), slices, n, end, place);
    FrontParts(out, p, place, end);
  }

  lemma {:induction false} TableLeast(wide: bool, n: nat)
    ensures TableEnd(wide, n) >= 8
  {
    Multiples(n, 0, EntrySize(wide));
  }

  lemma {:induction false} FrontParts(x: Buffer, y: Buffer, place: nat, end: nat)
    requires |x| == |y| && 8 <= end <= place <= |x| && x[0..8] == y[0..8] && x[end..place] == y[end..place]
    ensures SameAround(x[..place], y[..place], end)
  {
    assert x[..place][..8] == x[0..8] && y[..place][..8] == y[0..8];
    assert x[..place][end..] == x[end..place] && y[..place][end..] == y[end..place];
  }

  /** Both files up to the end of the first program. */
  lemma {:induction false} SameFirst(file: Buffer, t: Table, slices: seq<Buffer>, out: Buffer, others: seq<Buffer>)
    requires Assembled(file, t, slices, out) && Twice(t, slices, others)
    ensures JobOf(t, others).Valid() && OverNew(t, slices, others).Valid()
    ensures JobOf(t, others).EntryIn(0).offset <= |file| && OverNew(t, slices, others).EntryIn(0).offset <= |out|
    ensures SameAround(OverNew(t, slices, others).Body(out, 1), JobOf(t, others).Body(file, 1), TableEnd(t.wide, |slices|))
  {
    hide ParseTable, Order, AlignUp, Pow2, AssembleUniversal, Zeros, NewTable, TableEnd, SameAround;
    BothValid(t, slices, others);
    NewFront(file, t, slices, out);
    EntryOverNew(t, slices, others, 0);
    FirstPlace(t, slices, others);
    var k, o, front := OverNew(t, slices, others), JobOf(t, others), out[..JobOf(t, slices).Place(0)];
    NoZeros(front);
    AroundMore(front, file[..o.EntryIn(0).offset] + Zeros(o.Place(0) - o.EntryIn(0).offset), TableEnd(t.wide, |slices|), o.SliceIn(0));
  }

  lemma {:induction false} SameBody(file: Buffer, t: Table, slices: seq<Buffer>, out: Buffer, others: seq<Buffer>, j: nat)
    requires Assembled(file, t, slices, out) && Twice(t, slices, others) && 0 < j <= |slices|
    ensures JobOf(t, others).Valid() && OverNew(t, slices, others).Valid()
    ensures JobOf(t, others).EntryIn(0).offset <= |file| && OverNew(t, slices, others).EntryIn(0).offset <= |out|
    ensures SameAround(OverNew(t, slices, others).Body(out, j), JobOf(t, others).Body(file, j), TableEnd(t.wide, |slices|))
  {
    hide ParseTable, Order, AlignUp, Pow2, AssembleUniversal, Zeros, NewTable, TableEnd, SameAround;
    SameFirst(file, t, slices, out, others);
    if j > 1 {
      SameBody(file, t, slices, out, others, j - 1);
      SamePlace(t, slices, others, j - 1);
      SamePlace(t, slices, others, j - 2);
      var k, o := OverNew(t, slices, others), JobOf(t, others);
      BodyNext(k, out, j - 1);
      BodyNext(o, file, j - 1);
      AroundMore(k.Body(out, j - 1), o.Body(file, j - 1), TableEnd(t.wide, |slices|), Zeros(o.Place(j - 1) - o.Cursor(j - 1)) + o.SliceIn(j - 1));
    }
  }

  lemma {:induction false} BodyNext(job: Job, file: Buffer, j: nat)
    requires job.Valid() && j < |job.order| && job.EntryIn(0).offset <= |file|
    ensures job.Cursor(j) <= job.Place(j)
    ensures job.Body(file, j + 1) == job.Body(file, j) + (Zeros(job.Place(j) - job.Cursor(j)) + job.SliceIn(j))
  {
    hide AlignUp, Pow2, Zeros;
    PlaceAligned(job, j);
  }

  lemma {:induction false} NoZeros(s: Buffer)
    ensures s + Zeros(0) == s
  {
  }

  lemma {:induction false} FirstPlace(t: Table, slices: seq<Buffer>, others: seq<Buffer>)
    requires Twice(t, slices, others)
    ensures JobOf(t, slices).Valid() && JobOf(t, others).Valid() && OverNew(t, slices, others).Valid()
    ensures JobOf(t, slices).Place(0) == JobOf(t, others).Place(0) == OverNew(t, slices, others).Place(0) == OverNew(t, slices, others).Cursor(0)
  {
    hide Order, NewTable, Pow2;
    BothValid(t, slices, others);
    EntryOverNew(t, slices, others, 0);
    SamePlace(t, slices, others, 0);
  }

  /** A file is determined by its header, its table's rows and what follows the table. */
  lemma {:induction false} RowsDetermine(x: Buffer, y: Buffer, wide: bool, count: nat)
    requires TableEnd(wide, count) <= |x| && SameAround(x, y, TableEnd(wide, count))
    requires forall i: nat :: i < count ==> Row(x, wide, count, i) == Row(y, wide, count, i)
    ensures x == y
  {
    forall p | 0 <= p < |x| ensures x[p] == y[p] {
      if p < 8 {
        assert x[p] == x[..8][p] && y[p] == y[..8][p];
      } else if p >= TableEnd(wide, count) {
        assert x[p] == x[TableEnd(wide, count)..][p - TableEnd(wide, count)] && y[p] == y[TableEnd(wide, count)..][p - TableEnd(wide, count)];
      } else {
        var i := RowHolding(wide, count, p);
        assert x[p] == Row(x, wide, count, i)[p - RowAt(wide, i)] && y[p] == Row(y, wide, count, i)[p - RowAt(wide, i)];
      }
    }
  }

  lemma {:induction false} RowHolding(wide: bool, count: nat, p: nat) returns (i: nat)
    requires 8 <= p < TableEnd(wide, count)
    ensures i < count && RowAt(wide, i) <= p < RowAt(wide, i + 1) && RowAt(wide, i + 1) == RowAt(wide, i) + EntrySize(wide)
  {
    var size := EntrySize(wide);
    i := (p - 8) / size;
    assert p - 8 == i * size + (p - 8) % size;
    assert (i + 1) * size == i * size + size;
    if i >= count { Multiples(i, count, size); }
  }

  lemma {:induction false} NewRowTwice(row: Buffer, wide: bool, offset: nat, size: nat, offset': nat, size': nat)
    requires |row| == EntrySize(wide) && FieldsFit(wide, offset, size) && FieldsFit(wide, offset', size')
    ensures NewRow(NewRow(row, wide, offset, size), wide, offset', size') == NewRow(row, wide, offset', size')
  {
    hide BE32, BE64, Put;
    PutOver(row, 8, Fields(wide, offset, size), Fields(wide, offset', size'));
  }

  /** Putting programs into a file that was just assembled gives what putting them into the first one gives. */
  lemma {:induction false} AssemblingAgain(file: Buffer, t: Table, slices: seq<Buffer>, out: Buffer, others: seq<Buffer>)
    requires Assembled(file, t, slices, out) && |slices[0]| >= 4 && Classify(slices[0]).Thin() && |others| == |slices|
    ensures ParseTable(out) == Some(NewTable(t, slices))
    ensures AssembleUniversal(out, NewTable(t, slices), others) == AssembleUniversal(file, t, others)
  {
    hide ParseTable, Order, AlignUp, Pow2, NewTable, Classify, Retabled, FieldsFit, TableEnd;
    TableBack(file, t, slices, out);
    SameOrder(file, t, slices, out);
    var n, u := |slices|, NewTable(t, slices);
    BothValid(t, slices, others);
    SameOffsets(t, slices, others, n, t.wide);
    SamePlace(t, slices, others, n - 1);
    if Fits(t, others) {
      AllFieldsFit(file, t, others);
      AllFieldsFit(out, u, others);
      SameFiles(file, t, slices, out, others);
    }
  }

  /** The two files before their tables are written. */
  lemma {:induction false} SamePlaced(file: Buffer, t: Table, slices: seq<Buffer>, out: Buffer, others: seq<Buffer>)
    requires Assembled(file, t, slices, out) && Twice(t, slices, others) && ParseTable(out) == Some(NewTable(t, slices))
    requires Fits(t, others) && Fits(NewTable(t, slices), others)
    ensures SameAround(Placed(out, NewTable(t, slices), others), Placed(file, t, others), TableEnd(t.wide, |slices|))
  {
    hide ParseTable, Order, AlignUp, Pow2, NewTable, AssembleUniversal, FieldsFit, TableEnd, SameAround;
    var n, u := |slices|, NewTable(t, slices);
    BothValid(t, slices, others);
    AllFieldsFit(file, t, others);
    AllFieldsFit(out, u, others);
    SameBody(file, t, slices, out, others, n);
    NewOldEnd(t, slices, others, n);
    OldEndSame(t, slices, others, n);
    OtherBytesKept(file, t, slices, out);
    AroundMore(OverNew(t, slices, others).Body(out, n), JobOf(t, others).Body(file, n), TableEnd(t.wide, n), file[JobOf(t, others).OldEnd(n)..]);
  }

  lemma {:induction false} RowsAgain(file: Buffer, t: Table, slices: seq<Buffer>, out: Buffer, others: seq<Buffer>, i: nat)
    requires Assembled(file, t, slices, out) && Twice(t, slices, others) && ParseTable(out) == Some(NewTable(t, slices)) && i < |slices|
    requires Fits(t, others) && Fits(NewTable(t, slices), others)
    ensures TableEnd(t.wide, |slices|) <= |file| && TableEnd(t.wide, |slices|) <= |out|
    ensures Row(Placed(file, t, others), t.wide, |slices|, i) == Row(file, t.wide, |slices|, i)
    ensures Row(Placed(out, NewTable(t, slices), others), t.wide, |slices|, i) == Row(out, t.wide, |slices|, i)
  {
    hide ParseTable, Order, AlignUp, Pow2, NewTable, AssembleUniversal, FieldsFit, TableEnd, RowAt, EntrySize, Placed, Fits;
    var u := NewTable(t, slices);
    BothValid(t, slices, others);
    PlacedStarts(file, t, others);
    PlacedStarts(out, u, others);
    RowFits(t.wide, |slices|, i);
    SameHead(Placed(file, t, others), file, JobOf(t, others).EntryIn(0).offset, RowAt(t.wide, i), RowAt(t.wide, i + 1));
    SameHead(Placed(out, u, others), out, OverNew(t, slices, others).EntryIn(0).offset, RowAt(t.wide, i), RowAt(t.wide, i + 1));
  }

  lemma {:induction false} SameFiles(file: Buffer, t: Table, slices: seq<Buffer>, out: Buffer, others: seq<Buffer>)
    requires Assembled(file, t, slices, out) && Twice(t, slices, others) && ParseTable(out) == Some(NewTable(t, slices))
    requires Fits(t, others) && Fits(NewTable(t, slices), others)
    ensures AssembleUniversal(out, NewTable(t, slices), others) == AssembleUniversal(file, t, others)
  {
    hide ParseTable, Order, AlignUp, Pow2, NewTable, FieldsFit, TableEnd, RowAt, EntrySize, Fits, NewRow, Row, SameAround, Retabled;
    var n, u := |slices|, NewTable(t, slices);
    BothValid(t, slices, others);
    AllFieldsFit(file, t, others);
    AllFieldsFit(out, u, others);
    SameOffsets(t, slices, others, n, t.wide);
    SamePlaced(file, t, slices, out, others);
    var offsets := JobOf(t, others).Offsets(n);
    var x := Retabled(Placed(out, u, others), t.wide, offsets, others, n);
    var y := Retabled(Placed(file, t, others), t.wide, offsets, others, n);
    RetabledAround(Placed(out, u, others), Placed(file, t, others), t.wide, offsets, others);
    forall i: nat | i < n ensures Row(x, t.wide, n, i) == Row(y, t.wide, n, i) {
      RetabledRow(Placed(out, u, others), t.wide, offsets, others, n, i);
      RetabledRow(Placed(file, t, others), t.wide, offsets, others, n, i);
      RowsAgain(file, t, slices, out, others, i);
      RowKept(file, t, slices, out, i);
      NewRowTwice(Row(file, t.wide, n, i), t.wide, u.entries[i].offset, u.entries[i].size, offsets[i], |others[i]|);
    }
    RowsDetermine(x, y, t.wide, n);
  }

  lemma {:induction false} RetabledAround(x: Buffer, y: Buffer, wide: bool, offsets: seq<nat>, slices: seq<Buffer>)
    requires |offsets| == |slices| && TableEnd(wide, |slices|) <= |x| && SameAround(x, y, TableEnd(wide, |slices|))
    requires forall i :: 0 <= i < |slices| ==> FieldsFit(wide, offsets[i], |slices[i]|)
    ensures SameAround(Retabled(x, wide, offsets, slices, |slices|), Retabled(y, wide, offsets, slices, |slices|), TableEnd(wide, |slices|))
  {
    hide Retabled, FieldsFit;
    var n, end := |slices|, TableEnd(wide, |slices|);
    RetabledApart(x, wide, offsets, slices, n, 0, 8);
    RetabledApart(y, wide, offsets, slices, n, 0, 8);
    RetabledApart(x, wide, offsets, slices, n, end, |x|);
    RetabledApart(y, wide, offsets, slices, n, end, |y|);
    AroundIs(Retabled(x, wide, offsets, slices, n), x, end);
    AroundIs(Retabled(y, wide, offsets, slices, n), y, end);
  }

  lemma {:induction false} AroundIs(r: Buffer, x: Buffer, end: nat)
    requires |r| == |x| && 8 <= end <= |x| && r[0..8] == x[0..8] && r[end..|x|] == x[end..|x|]
    ensures SameAround(r, x, end)
  {
    assert r[0..8] == r[..8] && x[0..8] == x[..8];
    assert r[end..|x|] == r[end..] && x[end..|x|] == x[end..];
  }

  // ── Between the programs ───────────────────────────────────

  /** Between two programs the new file has zeros only. */
  lemma {:induction false} GapIsZero(job: Job, file: Buffer, j: nat, n: nat)
    requires job.Valid() && j < n <= |job.order| && job.EntryIn(0).offset <= |file|
    ensures job.Cursor(j) <= job.Place(j) <= |job.Body(file, n)|
    ensures job.Body(file, n)[job.Cursor(j)..job.Place(j)] == Zeros(job.Place(j) - job.Cursor(j))
    decreases n
  {
    hide AlignUp, Pow2, Zeros;
    BodyNext(job, file, n - 1);
    PlaceAligned(job, n - 1);
    if j < n - 1 {
      GapIsZero(job, file, j, n - 1);
      BodyKeeps(job, file, n, job.Cursor(j), job.Place(j));
    }
  }

  lemma {:induction false} GapInFile(file: Buffer, t: Table, slices: seq<Buffer>, out: Buffer, j: nat)
    requires Assembled(file, t, slices, out) && 0 < j < |slices|
    ensures JobOf(t, slices).Valid() && JobOf(t, slices).Cursor(j) <= JobOf(t, slices).Place(j) <= |out|
    ensures forall at :: JobOf(t, slices).Cursor(j) <= at < JobOf(t, slices).Place(j) ==> out[at] == 0
  {
    hide ParseTable, Order, AlignUp, Pow2, AssembleUniversal, Retabled, FieldsFit;
    JobIsValid(t, slices);
    AssembledIs(file, t, slices, out);
    AllFieldsFit(file, t, slices);
    var job, n, p := JobOf(t, slices), |slices|, Placed(file, t, slices);
    GapIsZero(job, file, j, n);
    CursorGrows(job, 0, j);
    SliceOfPrefix(job.Body(file, n), file[job.OldEnd(n)..], job.Cursor(j), job.Place(j));
    hide Placed, Fits, TableEnd;
    RetabledApart(p, t.wide, job.Offsets(n), slices, n, job.Cursor(j), job.Place(j));
    forall at | job.Cursor(j) <= at < job.Place(j) ensures out[at] == 0 {
      assert out[at] == out[job.Cursor(j)..job.Place(j)][at - job.Cursor(j)];
    }
  }
}
