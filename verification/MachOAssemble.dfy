/** Putting programs back into a universal file: the file that results is read back as exactly those programs. */
module MachOAssemble {
  import opened Bytes
  import opened MachOLayout
  import opened MachOPlan
  import opened MachOUniversal
  import MachOSigned

  // ── Places ─────────────────────────────────────────────────

  lemma {:induction false} PlaceAligned(job: Job, j: nat)
    requires job.Valid() && j < |job.order|
    ensures job.Cursor(j) <= job.Place(j) && job.Place(j) % Pow2(job.EntryIn(j).align) == 0
    ensures job.Cursor(j + 1) == job.Place(j) + |job.SliceIn(j)|
  {
    AlignedUp(job.Cursor(j), Pow2(job.EntryIn(j).align));
  }

  lemma {:induction false} CursorGrows(job: Job, j: nat, k: nat)
    requires job.Valid() && j <= k <= |job.order|
    ensures job.Cursor(j) <= job.Cursor(k)
    decreases k
  {
    if j < k {
      CursorGrows(job, j, k - 1);
      PlaceAligned(job, k - 1);
    }
  }

  lemma {:induction false} OffsetsKeep(job: Job, j: nat, k: nat)
    requires job.Valid() && Lists(job.order, |job.entries|) && j < k <= |job.order|
    ensures job.Offsets(k)[job.order[j]] == job.Place(j)
    decreases k
  {
    hide AlignUp;
    if j < k - 1 { OffsetsKeep(job, j, k - 1); }
  }

  lemma {:induction false} OldEndWithin(job: Job, j: nat, size: nat)
    requires job.Valid() && j <= |job.order| && forall i :: 0 <= i < |job.entries| ==> job.entries[i].End() <= size
    ensures job.OldEnd(j) <= size
  {
    if j > 0 { OldEndWithin(job, j - 1, size); }
  }

  /** The offset of entry i, and how much of the file it takes. */
  lemma {:induction false} OffsetFits(job: Job, i: nat) returns (j: nat)
    requires job.Valid() && Lists(job.order, |job.entries|) && i < |job.entries|
    ensures j < |job.order| && job.order[j] == i && job.Offsets(|job.order|)[i] == job.Place(j)
    ensures job.Cursor(0) <= job.Place(j) && job.Place(j) + |job.slices[i]| <= job.Cursor(|job.order|)
  {
    hide AlignUp;
    assert i in job.order;
    j :| 0 <= j < |job.order| && job.order[j] == i;
    OffsetsKeep(job, j, |job.order|);
    CursorGrows(job, 0, j);
    PlaceAligned(job, j);
    CursorGrows(job, j + 1, |job.order|);
  }

  /** What an accepted table promises. */
  lemma {:induction false} TableFacts(file: Buffer)
    requires ParseTable(file).Some?
    ensures var t := ParseTable(file).value;
      && (Classify(file) == if t.wide then Fat64 else Fat32) && |file| >= 8 && B32(file, 4) == |t.entries|
      && t.entries == Entries(file, t.wide, |t.entries|)
      && forall i :: 0 <= i < |t.entries| ==> EntryFits(file, t.entries[i], TableEnd(t.wide, |t.entries|))
  {
    hide Classify, B32, EntryAt, OffsetKey;
  }

  /** The programs given fit in the table's fields. */
  predicate Fits(t: Table, slices: seq<Buffer>)
    requires |t.entries| > 0
  {
    var job := JobOf(t, slices);
    && job.Valid() && job.Placeable(t.wide, |t.entries|)
    && (t.wide ==> job.Cursor(|t.entries|) < LIMIT64)
  }

  lemma {:induction false} JobIsValid(t: Table, slices: seq<Buffer>)
    requires |t.entries| == |slices| > 0
    ensures JobOf(t, slices).Valid() && Lists(Order(t.entries), |t.entries|)
  {
    OrderLists(t.entries);
  }

  lemma {:induction false} PlaceableBelow(job: Job, wide: bool, j: nat)
    requires job.Valid() && j <= |job.order| && job.Placeable(wide, j) && !wide && j > 0
    ensures job.Cursor(j) < LIMIT32
  {
    hide AlignUp;
  }

  lemma {:induction false} AllFieldsFit(file: Buffer, t: Table, slices: seq<Buffer>)
    requires ParseTable(file) == Some(t) && |slices| == |t.entries| && Fits(t, slices)
    ensures var job, n := JobOf(t, slices), |t.entries|;
      && job.Valid() && TableEnd(t.wide, n) <= job.EntryIn(0).offset <= |file| && job.OldEnd(n) <= |file|
      && TableEnd(t.wide, n) <= job.Cursor(n)
      && forall i :: 0 <= i < n ==> FieldsFit(t.wide, job.Offsets(n)[i], |slices[i]|)
  {
    hide Classify, B32, EntryAt, OffsetKey, AlignUp, Order, ParseTable;
    var job, n := JobOf(t, slices), |t.entries|;
    TableFacts(file);
    JobIsValid(t, slices);
    OldEndWithin(job, n, |file|);
    CursorGrows(job, 0, n);
    forall i | 0 <= i < n ensures FieldsFit(t.wide, job.Offsets(n)[i], |slices[i]|) {
      var j := OffsetFits(job, i);
      if !t.wide { PlaceableBelow(job, t.wide, n); }
    }
  }

  /** The new file, or a refusal when an alignment or a 32-bit offset is out of range. In the wide form offsets
      beyond 64 bits are not considered. */
  function AssembleUniversal(file: Buffer, t: Table, slices: seq<Buffer>): Option<Buffer>
    requires ParseTable(file) == Some(t) && |slices| == |t.entries|
  {
    JobIsValid(t, slices);
    var job, n := JobOf(t, slices), |t.entries|;
    if !Fits(t, slices) then None
    else
      AllFieldsFit(file, t, slices);
      Some(Retabled(job.Body(file, n) + file[job.OldEnd(n)..], t.wide, job.Offsets(n), slices, n))
  }

  lemma {:induction false} NotPlaceable(job: Job, wide: bool, j: nat, n: nat)
    requires job.Valid() && j <= n <= |job.order| && !job.Placeable(wide, j)
    ensures !job.Placeable(wide, n)
    decreases n
  {
    if j < n { NotPlaceable(job, wide, j, n - 1); }
  }

  /** Where the programs go: each aligned after the one before, refused where a field cannot hold it. */
  method PlacePrograms(job: Job, wide: bool) returns (ok: bool, offsets: seq<nat>, cursor: nat, oldEnd: nat)
    requires job.Valid()
    ensures ok <==> job.Placeable(wide, |job.order|)
    ensures ok ==> offsets == job.Offsets(|job.order|) && cursor == job.Cursor(|job.order|) && oldEnd == job.OldEnd(|job.order|)
  {
    hide AlignUp, Pow2;
    var n := |job.order|;
    offsets := seq(|job.entries|, _ => 0);
    cursor, oldEnd, ok := job.EntryIn(0).offset, 0, true;
    for j := 0 to n
      invariant ok && job.Placeable(wide, j)
      invariant |offsets| == |job.entries|
      invariant offsets == job.Offsets(j) && cursor == job.Cursor(j) && oldEnd == job.OldEnd(j)
    {
      var e := job.EntryIn(j);
      var place := AlignUp(cursor, Pow2(e.align));
      PlaceAligned(job, j);
      offsets := offsets[job.order[j] := place];
      cursor := place + |job.SliceIn(j)|;
      if e.End() > oldEnd { oldEnd := e.End(); }
      if e.align >= 32 || (!wide && cursor >= LIMIT32) {
        NotPlaceable(job, wide, j + 1, n);
        ok := false;
        return;
      }
    }
  }

  /** The file up to the end of the last program: zeros up to each place, then the program. */
  method AppendPrograms(job: Job, file: Buffer) returns (out: Buffer)
    requires job.Valid() && job.EntryIn(0).offset <= |file|
    ensures out == job.Body(file, |job.order|)
  {
    hide AlignUp, Pow2;
    out := file[..job.EntryIn(0).offset];
    for j := 0 to |job.order|
      invariant out == job.Body(file, j)
    {
      PlaceAligned(job, j);
      out := out + Zeros(job.Place(j) - |out|);
      out := out + job.SliceIn(j);
    }
  }

  /** The passes of the code: places first, then the bytes, then the fields of the table. */
  method Assemble(file: Buffer, t: Table, slices: seq<Buffer>) returns (r: Option<Buffer>)
    requires ParseTable(file) == Some(t) && |slices| == |t.entries|
    ensures r == AssembleUniversal(file, t, slices)
  {
    hide ParseTable, Order, AlignUp, Retabled, FieldsFit;
    JobIsValid(t, slices);
    var job, n := JobOf(t, slices), |slices|;
    var ok, offsets, cursor, oldEnd := PlacePrograms(job, t.wide);
    if !ok || (t.wide && cursor >= LIMIT64) { return None; }
    AllFieldsFit(file, t, slices);
    var out := AppendPrograms(job, file);
    out := WriteTable(out + file[oldEnd..], t.wide, offsets, slices);
    r := Some(out);
  }

  method WriteTable(placed: Buffer, wide: bool, offsets: seq<nat>, slices: seq<Buffer>) returns (out: Buffer)
    requires |offsets| == |slices| && TableEnd(wide, |slices|) <= |placed|
    requires forall i :: 0 <= i < |slices| ==> FieldsFit(wide, offsets[i], |slices[i]|)
    ensures out == Retabled(placed, wide, offsets, slices, |slices|)
  {
    hide WriteRow, FieldsFit, TableEnd;
    out := placed;
    for i := 0 to |slices|
      invariant out == Retabled(placed, wide, offsets, slices, i)
    {
      out := WriteRow(out, wide, |slices|, i, offsets[i], |slices[i]|);
    }
  }

  // ── The bytes ──────────────────────────────────────────────

  /** Placing one more program keeps what is there. */
  lemma {:induction false} BodyKeeps(job: Job, file: Buffer, n: nat, lo: nat, hi: nat)
    requires job.Valid() && 0 < n <= |job.order| && job.EntryIn(0).offset <= |file| && lo <= hi <= job.Cursor(n - 1)
    ensures job.Cursor(n - 1) <= job.Cursor(n) && job.Body(file, n)[lo..hi] == job.Body(file, n - 1)[lo..hi]
  {
    hide AlignUp, Zeros;
    PlaceAligned(job, n - 1);
    var a, b := job.Body(file, n - 1), Zeros(job.Place(n - 1) - job.Cursor(n - 1)) + job.SliceIn(n - 1);
    assert job.Body(file, n) == a + b;
    SliceOfPrefix(a, b, lo, hi);
  }

  lemma {:induction false} BodyHolds(job: Job, file: Buffer, j: nat, n: nat)
    requires job.Valid() && j < n <= |job.order| && job.EntryIn(0).offset <= |file|
    ensures HoldsAt(job.Body(file, n), job.Place(j), job.SliceIn(j))
    decreases n
  {
    hide AlignUp, Zeros;
    PlaceAligned(job, n - 1);
    if j < n - 1 {
      BodyHolds(job, file, j, n - 1);
      BodyKeeps(job, file, n, job.Place(j), job.Place(j) + |job.SliceIn(j)|);
    }
  }

  lemma {:induction false} BodyStarts(job: Job, file: Buffer, n: nat)
    requires job.Valid() && n <= |job.order| && job.EntryIn(0).offset <= |file|
    ensures job.EntryIn(0).offset <= |job.Body(file, n)|
    ensures job.Body(file, n)[..job.EntryIn(0).offset] == file[..job.EntryIn(0).offset]
  {
    hide AlignUp, Zeros;
    if n > 0 {
      BodyStarts(job, file, n - 1);
      BodyKeeps(job, file, n, 0, job.EntryIn(0).offset);
    }
  }

  lemma {:induction false} RowsApart(wide: bool, i: nat, j: nat)
    requires i != j
    ensures RowAt(wide, i + 1) <= RowAt(wide, j) || RowAt(wide, j + 1) <= RowAt(wide, i)
  {
    if i < j { Multiples(j, i + 1, EntrySize(wide)); } else { Multiples(i, j + 1, EntrySize(wide)); }
  }

  /** A write inside the bytes of row k. */
  lemma {:induction false} WriteInRow(s: Buffer, wide: bool, count: nat, k: nat, piece: Buffer)
    requires k < count && TableEnd(wide, count) <= |s| && 8 + |piece| <= EntrySize(wide)
    ensures RowAt(wide, k) + 8 + |piece| <= |s|
    ensures Row(Put(s, RowAt(wide, k) + 8, piece), wide, count, k) == Put(Row(s, wide, count, k), 8, piece)
  {
    hide Put, RowAt, TableEnd, EntrySize;
    RowFits(wide, count, k);
    MachOSigned.PutInside(s, RowAt(wide, k) + 8, piece, RowAt(wide, k), RowAt(wide, k + 1));
  }

  lemma {:induction false} WriteOffRow(s: Buffer, wide: bool, count: nat, k: nat, i: nat, piece: Buffer)
    requires k < count && i < count && i != k && TableEnd(wide, count) <= |s| && 8 + |piece| <= EntrySize(wide)
    ensures RowAt(wide, k) + 8 + |piece| <= |s|
    ensures Row(Put(s, RowAt(wide, k) + 8, piece), wide, count, i) == Row(s, wide, count, i)
  {
    hide Put, RowAt, TableEnd, EntrySize;
    RowFits(wide, count, k);
    RowFits(wide, count, i);
    RowsApart(wide, i, k);
    PutApart(s, RowAt(wide, k) + 8, piece, RowAt(wide, i), RowAt(wide, i + 1));
  }

  lemma {:induction false} FieldsInRow(wide: bool, offset: nat, size: nat)
    requires FieldsFit(wide, offset, size)
    ensures 8 + |Fields(wide, offset, size)| <= EntrySize(wide)
  {
    hide BE32, BE64;
  }

  /** Writing the fields of row k, seen from row i. */
  lemma {:induction false} RowWrite(s: Buffer, wide: bool, count: nat, k: nat, i: nat, offset: nat, size: nat)
    requires k < count && i < count && TableEnd(wide, count) <= |s| && FieldsFit(wide, offset, size)
    ensures Row(WriteRow(s, wide, count, k, offset, size), wide, count, i)
         == if i == k then NewRow(Row(s, wide, count, i), wide, offset, size) else Row(s, wide, count, i)
  {
    hide Put, Fields, Row, RowAt, TableEnd, EntrySize;
    FieldsInRow(wide, offset, size);
    if i == k {
      WriteInRow(s, wide, count, k, Fields(wide, offset, size));
    } else {
      WriteOffRow(s, wide, count, k, i, Fields(wide, offset, size));
    }
  }

  /** A row of the rewritten table: the old one with its two fields written. */
  lemma {:induction false} RetabledRow(out: Buffer, wide: bool, offsets: seq<nat>, slices: seq<Buffer>, n: nat, i: nat)
    requires n <= |offsets| == |slices| && TableEnd(wide, |slices|) <= |out| && i < |slices|
    requires forall i :: 0 <= i < |slices| ==> FieldsFit(wide, offsets[i], |slices[i]|)
    ensures Row(Retabled(out, wide, offsets, slices, n), wide, |slices|, i)
         == if i < n then NewRow(Row(out, wide, |slices|, i), wide, offsets[i], |slices[i]|) else Row(out, wide, |slices|, i)
  {
    hide Row, NewRow, WriteRow, TableEnd, EntrySize, FieldsFit;
    if n > 0 {
      RetabledRow(out, wide, offsets, slices, n - 1, i);
      RowWrite(Retabled(out, wide, offsets, slices, n - 1), wide, |slices|, n - 1, i, offsets[n - 1], |slices[n - 1]|);
    }
  }

  /** Outside the table nothing changes. */
  lemma {:induction false} RetabledApart(out: Buffer, wide: bool, offsets: seq<nat>, slices: seq<Buffer>, n: nat, lo: nat, hi: nat)
    requires n <= |offsets| == |slices| && TableEnd(wide, |slices|) <= |out| && lo <= hi <= |out|
    requires forall i :: 0 <= i < |slices| ==> FieldsFit(wide, offsets[i], |slices[i]|)
    requires hi <= 8 || TableEnd(wide, |slices|) <= lo
    ensures Retabled(out, wide, offsets, slices, n)[lo..hi] == out[lo..hi]
  {
    hide Put, Fields;
    if n > 0 {
      RetabledApart(out, wide, offsets, slices, n - 1, lo, hi);
      RowFits(wide, |slices|, n - 1);
      PutApart(Retabled(out, wide, offsets, slices, n - 1), RowAt(wide, n - 1) + 8, Fields(wide, offsets[n - 1], |slices[n - 1]|), lo, hi);
    }
  }

  lemma {:induction false} SameBig(s: Buffer, t: Buffer, at: nat)
    requires at + 4 <= |s| && at + 4 <= |t| && s[at..at + 4] == t[at..at + 4]
    ensures B32(s, at) == B32(t, at)
  {
    var a, b := s[at..at + 4], t[at..at + 4];
    assert a[0] == b[0] && a[1] == b[1] && a[2] == b[2] && a[3] == b[3];
  }

  lemma {:induction false} RowBack(row: Buffer, wide: bool, offset: nat, size: nat)
    requires |row| == EntrySize(wide) && FieldsFit(wide, offset, size)
    ensures RowOf(NewRow(row, wide, offset, size), wide) == RowOf(row, wide).(offset := offset, size := size)
  {
    hide Put, B32, B64, BE32, BE64;
    var f := Fields(wide, offset, size);
    var r := Put(row, 8, f);
    PutApart(row, 8, f, 0, 4);
    PutApart(row, 8, f, 4, 8);
    SameBig(r, row, 0);
    SameBig(r, row, 4);
    if wide {
      PutApart(row, 8, f, 24, 28);
      SameBig(r, row, 24);
      assert r[8..16] == r[8..24][..8] == BE64(offset) && r[16..24] == r[8..24][8..] == BE64(size);
      ReadBig64(r, 8, offset);
      ReadBig64(r, 16, size);
    } else {
      PutApart(row, 8, f, 16, 20);
      SameBig(r, row, 16);
      assert r[8..12] == r[8..16][..4] == BE32(offset) && r[12..16] == r[8..16][4..] == BE32(size);
      ReadBig32(r, 8, offset);
      ReadBig32(r, 12, size);
    }
  }

  // ── Reading it back ────────────────────────────────────────

  /** The table with each program's new place and length. */
  function NewTable(t: Table, slices: seq<Buffer>): (r: Table)
    requires |t.entries| == |slices| > 0
    ensures r.wide == t.wide && |r.entries| == |t.entries|
  {
    JobIsValid(t, slices);
    var offsets := JobOf(t, slices).Offsets(|slices|);
    Table(t.wide, seq(|slices|, i requires 0 <= i < |slices| => t.entries[i].(offset := offsets[i], size := |slices[i]|)))
  }

  /** The new file, known to be one. */
  ghost predicate Assembled(file: Buffer, t: Table, slices: seq<Buffer>, out: Buffer) {
    && ParseTable(file) == Some(t) && |slices| == |t.entries| && AssembleUniversal(file, t, slices) == Some(out)
    && (forall i :: 0 <= i < |slices| ==> slices[i] != [])
  }

  /** The file before its table is rewritten. */
  function Placed(file: Buffer, t: Table, slices: seq<Buffer>): (b: Buffer)
    requires ParseTable(file) == Some(t) && |slices| == |t.entries| && Fits(t, slices)
    ensures TableEnd(t.wide, |slices|) <= |b|
  {
    AllFieldsFit(file, t, slices);
    var job := JobOf(t, slices);
    job.Body(file, |slices|) + file[job.OldEnd(|slices|)..]
  }

  lemma {:induction false} AssembledIs(file: Buffer, t: Table, slices: seq<Buffer>, out: Buffer)
    requires Assembled(file, t, slices, out)
    ensures Fits(t, slices) && |Placed(file, t, slices)| == |out|
    ensures forall i :: 0 <= i < |slices| ==> FieldsFit(t.wide, JobOf(t, slices).Offsets(|slices|)[i], |slices[i]|)
    ensures out == Retabled(Placed(file, t, slices), t.wide, JobOf(t, slices).Offsets(|slices|), slices, |slices|)
  {
    hide ParseTable, Order, AlignUp, Retabled, FieldsFit;
    AllFieldsFit(file, t, slices);
  }

  /** The offset of every program in the new file lies past the table, is aligned, and the program is there. */
  lemma {:induction false} ProgramHeld(file: Buffer, t: Table, slices: seq<Buffer>, out: Buffer, i: nat)
    requires Assembled(file, t, slices, out) && i < |slices|
    ensures var e := NewTable(t, slices).entries[i];
      && TableEnd(t.wide, |slices|) <= e.offset && HoldsAt(out, e.offset, slices[i]) && e.offset % Pow2(e.align) == 0
  {
    hide ParseTable, Order, AlignUp, Retabled, FieldsFit, AssembleUniversal, Pow2, TableEnd, Fits, EntryFits, Zeros;
    AssembledIs(file, t, slices, out);
    AllFieldsFit(file, t, slices);
    JobIsValid(t, slices);
    var job, n := JobOf(t, slices), |slices|;
    var j := OffsetFits(job, i);
    PlaceAligned(job, j);
    BodyHolds(job, file, j, n);
    HoldsInBody(file, t, slices, job.Place(j), slices[i]);
    RetabledApart(Placed(file, t, slices), t.wide, job.Offsets(n), slices, n, job.Place(j), job.Place(j) + |slices[i]|);
  }

  lemma {:induction false} HoldsInBody(file: Buffer, t: Table, slices: seq<Buffer>, at: nat, piece: Buffer)
    requires ParseTable(file) == Some(t) && |slices| == |t.entries| && Fits(t, slices)
    requires JobOf(t, slices).EntryIn(0).offset <= |file| && HoldsAt(JobOf(t, slices).Body(file, |slices|), at, piece)
    ensures HoldsAt(Placed(file, t, slices), at, piece)
  {
    hide ParseTable, Order, AlignUp, Pow2, TableEnd, FieldsFit;
    AllFieldsFit(file, t, slices);
    var job := JobOf(t, slices);
    SliceOfPrefix(job.Body(file, |slices|), file[job.OldEnd(|slices|)..], at, at + |piece|);
  }

  /** The new entry of the j-th program in file order. */
  lemma {:induction false} NewEntry(t: Table, slices: seq<Buffer>, j: nat)
    requires |t.entries| == |slices| > 0 && j < |slices|
    ensures JobOf(t, slices).Valid()
    ensures var job := JobOf(t, slices);
      NewTable(t, slices).entries[job.order[j]] == job.EntryIn(j).(offset := job.Place(j), size := |job.SliceIn(j)|)
  {
    hide Order, AlignUp, Pow2;
    JobIsValid(t, slices);
    OffsetsKeep(JobOf(t, slices), j, |slices|);
  }

  /** The programs stand in the order they stood in, each after the one before. */
  lemma {:induction false} SameOrder(file: Buffer, t: Table, slices: seq<Buffer>, out: Buffer)
    requires Assembled(file, t, slices, out)
    ensures Order(NewTable(t, slices).entries) == Order(t.entries)
    ensures InOrder(NewTable(t, slices).entries, Order(t.entries))
  {
    hide ParseTable, Order, AlignUp, Pow2, AssembleUniversal, NewTable;
    JobIsValid(t, slices);
    var job, n, es, o := JobOf(t, slices), |slices|, NewTable(t, slices).entries, Order(t.entries);
    forall j, k | 0 <= j < k < n ensures es[o[j]].End() <= es[o[k]].offset && es[o[j]].offset < es[o[k]].offset {
      NewEntry(t, slices, j);
      NewEntry(t, slices, k);
      PlaceAligned(job, j);
      PlaceAligned(job, k);
      CursorGrows(job, j + 1, k);
    }
    OrderIs(es, o);
  }

  /** Before the first program the file is what it was, until the table is rewritten. */
  lemma {:induction false} PlacedStarts(file: Buffer, t: Table, slices: seq<Buffer>)
    requires ParseTable(file) == Some(t) && |slices| == |t.entries| && Fits(t, slices)
    ensures var job := JobOf(t, slices); var first := job.EntryIn(0).offset;
      TableEnd(t.wide, |slices|) <= first <= |file| && first <= |Placed(file, t, slices)| && Placed(file, t, slices)[..first] == file[..first]
  {
    hide ParseTable, Order, AlignUp, Pow2, TableEnd, FieldsFit;
    AllFieldsFit(file, t, slices);
    var job := JobOf(t, slices);
    BodyStarts(job, file, |slices|);
    SliceOfPrefix(job.Body(file, |slices|), file[job.OldEnd(|slices|)..], 0, job.EntryIn(0).offset);
  }

  lemma {:induction false} SameHead(s: Buffer, t: Buffer, n: nat, lo: nat, hi: nat)
    requires lo <= hi <= n <= |s| && n <= |t| && s[..n] == t[..n]
    ensures s[lo..hi] == t[lo..hi]
  {
    assert s[lo..hi] == s[..n][lo..hi] && t[lo..hi] == t[..n][lo..hi];
  }

  /** Each entry of the new file reads as the old one at its new place. */
  lemma {:induction false} EntryRead(file: Buffer, t: Table, slices: seq<Buffer>, out: Buffer, i: nat)
    requires Assembled(file, t, slices, out) && i < |slices|
    ensures TableEnd(t.wide, |slices|) <= |out| && EntryAt(out, t.wide, |slices|, i) == NewTable(t, slices).entries[i]
  {
    hide ParseTable, Order, AssembleUniversal, FieldsFit, NewRow, RowOf, TableEnd, Row, OffsetKey;
    RowKept(file, t, slices, out, i);
    TableFacts(file);
    var e := NewTable(t, slices).entries[i];
    RowBack(Row(file, t.wide, |slices|, i), t.wide, e.offset, e.size);
    assert t.entries[i] == EntryAt(file, t.wide, |slices|, i);
  }

  lemma {:induction false} EntriesRead(file: Buffer, t: Table, slices: seq<Buffer>, out: Buffer)
    requires Assembled(file, t, slices, out)
    ensures TableEnd(t.wide, |slices|) <= |out| && Entries(out, t.wide, |slices|) == NewTable(t, slices).entries
  {
    hide ParseTable, Order, AssembleUniversal, NewTable, EntryAt;
    EntryRead(file, t, slices, out, 0);
    forall i | 0 <= i < |slices| ensures Entries(out, t.wide, |slices|)[i] == NewTable(t, slices).entries[i] {
      EntryRead(file, t, slices, out, i);
    }
  }

  lemma {:induction false} HeaderKept(file: Buffer, t: Table, slices: seq<Buffer>, out: Buffer)
    requires Assembled(file, t, slices, out)
    ensures |out| >= 8 && Classify(out) == Classify(file) && B32(out, 4) == |slices|
  {
    hide ParseTable, Order, AlignUp, Pow2, AssembleUniversal, Retabled, FieldsFit, Fits, Placed, OffsetKey, Classify, B32, EntryAt;
    AssembledIs(file, t, slices, out);
    PlacedStarts(file, t, slices);
    TableFacts(file);
    JobIsValid(t, slices);
    var p := Placed(file, t, slices);
    RetabledApart(p, t.wide, JobOf(t, slices).Offsets(|slices|), slices, |slices|, 0, 8);
    SameHead(p, file, JobOf(t, slices).EntryIn(0).offset, 0, 8);
    assert out[..4] == out[0..8][..4] && file[..4] == file[0..8][..4];
    assert out[4..8] == out[0..8][4..] && file[4..8] == file[0..8][4..];
    MachOSigned.SameKind(file, out);
    SameBig(out, file, 4);
  }

  lemma {:induction false} HeldRange(out: Buffer, e: Entry, slice: Buffer)
    requires HoldsAt(out, e.offset, slice) && e.size == |slice|
    ensures RangeFits(e.offset, e.size, |out|) && out[e.offset..e.End()] == slice
  {
  }

  /** The table of the new file is the old one with the new places and lengths; its programs stand in the same order. */
  lemma {:induction false} TableBack(file: Buffer, t: Table, slices: seq<Buffer>, out: Buffer)
    requires Assembled(file, t, slices, out) && |slices[0]| >= 4 && Classify(slices[0]).Thin()
    ensures ParseTable(out) == Some(NewTable(t, slices))
  {
    hide Order, AlignUp, Pow2, AssembleUniversal, NewTable, Classify, B32, EntryAt, OffsetKey, TableEnd, Entries, HoldsAt, InOrder;
    HeaderKept(file, t, slices, out);
    EntriesRead(file, t, slices, out);
    SameOrder(file, t, slices, out);
    TableFacts(file);
    var es, n := NewTable(t, slices).entries, |slices|;
    forall i | 0 <= i < n ensures EntryFits(out, es[i], TableEnd(t.wide, n)) && es[i].size == |slices[i]| && HoldsAt(out, es[i].offset, slices[i]) {
      ProgramHeld(file, t, slices, out, i);
      NewSize(t, slices, i);
      HeldRange(out, es[i], slices[i]);
    }
    HeldRange(out, es[0], slices[0]);
  }

  lemma {:induction false} NewSize(t: Table, slices: seq<Buffer>, i: nat)
    requires |t.entries| == |slices| > 0 && i < |slices|
    ensures NewTable(t, slices).entries[i].size == |slices[i]|
  {
  }

  /** The programs of the new file are the ones given. */
  lemma {:induction false} LayoutsBack(file: Buffer, t: Table, slices: seq<Buffer>, out: Buffer, n: nat)
    requires Assembled(file, t, slices, out) && n <= |slices| && forall i :: 0 <= i < |slices| ==> ParseSlice(slices[i]).Some?
    ensures Layouts(out, NewTable(t, slices).entries, n).Some?
    ensures forall i :: 0 <= i < n ==> Some(Layouts(out, NewTable(t, slices).entries, n).value[i]) == ParseSlice(slices[i])
  {
    hide ParseTable, AssembleUniversal, NewTable, ParseSlice, HoldsAt;
    if n > 0 {
      LayoutsBack(file, t, slices, out, n - 1);
      ProgramHeld(file, t, slices, out, n - 1);
      NewSize(t, slices, n - 1);
      HeldRange(out, NewTable(t, slices).entries[n - 1], slices[n - 1]);
    }
  }

  lemma {:induction false} ThinStart(s: Buffer)
    requires ParseSlice(s).Some?
    ensures |s| >= 12 && Classify(s).Thin()
  {
    hide Classify, ParseProgram, B32, U32;
  }

  /** Putting accepted programs back gives a universal file of the same form that is accepted: its table is the old one
      with each entry's new place and length, and each entry's program is the one given. */
  lemma {:induction false} AssembledParses(file: Buffer, t: Table, slices: seq<Buffer>, out: Buffer)
    requires Assembled(file, t, slices, out) && forall i :: 0 <= i < |slices| ==> ParseSlice(slices[i]).Some?
    ensures ParseContainer(out).Some? && ParseContainer(out).value.Universal?
    ensures ParseContainer(out).value.table == NewTable(t, slices) && |ParseContainer(out).value.layouts| == |slices|
    ensures forall i :: 0 <= i < |slices| ==> Some(ParseContainer(out).value.layouts[i]) == ParseSlice(slices[i])
  {
    hide ParseTable, AssembleUniversal, NewTable, ParseSlice, Classify, B32, EntryAt;
    ThinStart(slices[0]);
    TableBack(file, t, slices, out);
    LayoutsBack(file, t, slices, out, |slices|);
    HeaderKept(file, t, slices, out);
    TableFacts(file);
  }

  /** The bytes around the programs are kept: the file's header, what lies between the table and the first program,
      and everything after the last one. */
  ghost predicate Surroundings(file: Buffer, out: Buffer, tableEnd: nat, first: nat, oldEnd: nat, newEnd: nat) {
    && 8 <= tableEnd <= first <= oldEnd <= |file| && first <= newEnd <= |out|
    && out[..8] == file[..8] && out[tableEnd..first] == file[tableEnd..first] && out[newEnd..] == file[oldEnd..]
  }

  lemma {:induction false} FirstBeforeEnd(job: Job, j: nat)
    requires job.Valid() && 0 < j <= |job.order|
    ensures job.EntryIn(0).offset <= job.OldEnd(j)
  {
    if j > 1 { FirstBeforeEnd(job, j - 1); }
  }

  /** Nothing else of the file changes. */
  lemma {:induction false} OtherBytesKept(file: Buffer, t: Table, slices: seq<Buffer>, out: Buffer)
    requires Assembled(file, t, slices, out)
    ensures JobOf(t, slices).Valid()
    ensures var job, n := JobOf(t, slices), |slices|;
      Surroundings(file, out, TableEnd(t.wide, n), job.EntryIn(0).offset, job.OldEnd(n), job.Cursor(n))
  {
    hide ParseTable, Order, AlignUp, Pow2, AssembleUniversal, Retabled, FieldsFit, Zeros;
    JobIsValid(t, slices);
    AssembledIs(file, t, slices, out);
    AllFieldsFit(file, t, slices);
    PlacedStarts(file, t, slices);
    var job, n, p := JobOf(t, slices), |slices|, Placed(file, t, slices);
    var end, first, offsets := TableEnd(t.wide, n), job.EntryIn(0).offset, job.Offsets(n);
    FirstBeforeEnd(job, n);
    CursorGrows(job, 0, n);
    hide TableEnd, Fits, Placed;
    RetabledApart(p, t.wide, offsets, slices, n, 0, 8);
    RetabledApart(p, t.wide, offsets, slices, n, end, first);
    SameHead(p, file, first, 0, 8);
    SameHead(p, file, first, end, first);
    RetabledApart(p, t.wide, offsets, slices, n, job.Cursor(n), |p|);
    PlacedEnds(file, t, slices);
  }

  lemma {:induction false} PlacedEnds(file: Buffer, t: Table, slices: seq<Buffer>)
    requires ParseTable(file) == Some(t) && |slices| == |t.entries| && Fits(t, slices)
    ensures var job, n := JobOf(t, slices), |slices|;
      job.OldEnd(n) <= |file| && job.Cursor(n) <= |Placed(file, t, slices)| && Placed(file, t, slices)[job.Cursor(n)..] == file[job.OldEnd(n)..]
  {
    hide ParseTable, Order, AlignUp, Pow2, TableEnd, FieldsFit;
    AllFieldsFit(file, t, slices);
  }

  /** Of a table's entry only the offset and the length change. */
  lemma {:induction false} RowKept(file: Buffer, t: Table, slices: seq<Buffer>, out: Buffer, i: nat)
    requires Assembled(file, t, slices, out) && i < |slices|
    ensures TableEnd(t.wide, |slices|) <= |out| && TableEnd(t.wide, |slices|) <= |file|
    ensures var e := NewTable(t, slices).entries[i];
      && FieldsFit(t.wide, e.offset, e.size)
      && Row(out, t.wide, |slices|, i) == NewRow(Row(file, t.wide, |slices|, i), t.wide, e.offset, e.size)
  {
    hide ParseTable, Order, AlignUp, Pow2, AssembleUniversal, Retabled, FieldsFit, NewRow, Fits, TableEnd, RowAt, Placed, EntrySize, OffsetKey;
    AssembledIs(file, t, slices, out);
    PlacedStarts(file, t, slices);
    JobIsValid(t, slices);
    var p, offsets := Placed(file, t, slices), JobOf(t, slices).Offsets(|slices|);
    RetabledRow(p, t.wide, offsets, slices, |slices|, i);
    RowFits(t.wide, |slices|, i);
    SameHead(p, file, JobOf(t, slices).EntryIn(0).offset, RowAt(t.wide, i), RowAt(t.wide, i + 1));
  }
}
