/** When signing a universal file and stripping it again gives the file back, byte for byte. */
module MachOFileExact {
  import opened Bytes
  import opened MachOLayout
  import opened MachOPlan
  import opened MachOSigner
  import opened MachOStrip
  import opened MachOUniversal
  import opened MachOAssemble
  import opened MachOReassemble
  import opened MachOFile
  import opened MachOFileStrip

  // ── Files whose programs stand where assembling puts them ──

  /** The k-th program begins at the first multiple of its alignment after the one before it; the first program at a
      multiple of its own. */
  predicate PackedAt(es: seq<Entry>, o: seq<nat>, k: nat)
    requires k < |o| && forall j :: 0 <= j < |o| ==> o[j] < |es|
  {
    es[o[k]].offset == AlignUp(if k == 0 then es[o[0]].offset else es[o[k - 1]].End(), Pow2(es[o[k]].align))
  }

  predicate Packed(es: seq<Entry>, o: seq<nat>)
    requires forall j :: 0 <= j < |o| ==> o[j] < |es|
  {
    forall k :: 0 <= k < |o| ==> PackedAt(es, o, k)
  }

  /** The programs of the file itself. */
  ghost predicate Own(file: Buffer, t: Table, programs: seq<Buffer>) {
    && ParseTable(file) == Some(t) && |programs| == |t.entries|
    && forall i :: 0 <= i < |programs| ==> programs[i] == ProgramOf(file, t.entries[i])
  }

  lemma {:induction false} OwnFacts(file: Buffer, t: Table, programs: seq<Buffer>)
    requires Own(file, t, programs)
    ensures |programs| > 0 && JobOf(t, programs).Valid() && Lists(Order(t.entries), |t.entries|)
    ensures forall i :: 0 <= i < |programs| ==> |programs[i]| == t.entries[i].size && t.entries[i].End() <= |file|
    ensures forall i :: 0 <= i < |programs| ==> programs[i] == file[t.entries[i].offset..t.entries[i].End()]
  {
    hide ParseTable, Order;
    TableFacts(file);
    JobIsValid(t, programs);
  }

  lemma {:induction false} TableOrdered(file: Buffer)
    requires ParseTable(file).Some?
    ensures InOrder(ParseTable(file).value.entries, Order(ParseTable(file).value.entries))
  {
    hide Order, EntryAt, Classify, B32;
  }

  lemma {:induction false} PackedPlaces(file: Buffer, t: Table, programs: seq<Buffer>, j: nat)
    requires Own(file, t, programs) && j < |programs| && Lists(Order(t.entries), |t.entries|) && Packed(t.entries, Order(t.entries))
    ensures JobOf(t, programs).Valid()
    ensures var job := JobOf(t, programs); job.Place(j) == job.EntryIn(j).offset && job.Cursor(j + 1) == job.EntryIn(j).End()
    ensures JobOf(t, programs).Cursor(j) == if j == 0 then JobOf(t, programs).EntryIn(0).offset else JobOf(t, programs).EntryIn(j - 1).End()
  {
    hide ParseTable, Order, AlignUp, Pow2;
    OwnFacts(file, t, programs);
    assert PackedAt(t.entries, Order(t.entries), j);
    if j > 0 { PackedPlaces(file, t, programs, j - 1); }
  }

  lemma {:induction false} PlacesPacked(file: Buffer, t: Table, programs: seq<Buffer>)
    requires Own(file, t, programs) && NewTable(t, programs) == t
    ensures Lists(Order(t.entries), |t.entries|) && Packed(t.entries, Order(t.entries))
  {
    hide ParseTable, Order, AlignUp, Pow2, NewTable;
    OwnFacts(file, t, programs);
    var job, o := JobOf(t, programs), Order(t.entries);
    forall k | 0 <= k < |o| ensures PackedAt(t.entries, o, k) {
      NewEntry(t, programs, k);
      if k > 0 { NewEntry(t, programs, k - 1); }
    }
  }

  lemma {:induction false} PackedTable(file: Buffer, t: Table, programs: seq<Buffer>)
    requires Own(file, t, programs) && Lists(Order(t.entries), |t.entries|) && Packed(t.entries, Order(t.entries))
    ensures |programs| > 0 && NewTable(t, programs) == t
  {
    hide ParseTable, Order, AlignUp, Pow2, NewTable;
    OwnFacts(file, t, programs);
    var o, u := Order(t.entries), NewTable(t, programs);
    forall i | 0 <= i < |programs| ensures u.entries[i] == t.entries[i] {
      assert i in o;
      var k :| 0 <= k < |o| && o[k] == i;
      NewEntry(t, programs, k);
      PackedPlaces(file, t, programs, k);
    }
    assert u.entries == t.entries;
  }

  // ── Their bytes ────────────────────────────────────────────

  lemma {:induction false} OwnEnd(file: Buffer, t: Table, programs: seq<Buffer>, j: nat)
    requires Own(file, t, programs) && 0 < j <= |programs|
    ensures JobOf(t, programs).Valid() && JobOf(t, programs).OldEnd(j) == JobOf(t, programs).EntryIn(j - 1).End()
  {
    hide ParseTable, Order, AlignUp, Pow2;
    OwnFacts(file, t, programs);
    TableOrdered(file);
    if j > 1 { OwnEnd(file, t, programs, j - 1); }
  }

  lemma {:induction false} ZerosThere(file: Buffer, from: nat, to: nat)
    requires from <= to <= |file| && AllZeroFrom(file, from, to)
    ensures file[from..to] == Zeros(to - from)
  {
  }

  /** The file up to each program is what assembling makes. */
  lemma {:induction false} OwnBody(file: Buffer, t: Table, programs: seq<Buffer>, j: nat)
    requires Own(file, t, programs) && j <= |programs| && Lists(Order(t.entries), |t.entries|) && Packed(t.entries, Order(t.entries))
    requires ZeroBetween(file, t.entries, Order(t.entries))
    ensures JobOf(t, programs).Valid() && JobOf(t, programs).EntryIn(0).offset <= |file| && JobOf(t, programs).Cursor(j) <= |file|
    ensures JobOf(t, programs).Body(file, j) == file[..JobOf(t, programs).Cursor(j)]
  {
    hide ParseTable, Order, AlignUp, Pow2, Zeros, Packed, AllZeroFrom;
    OwnFacts(file, t, programs);
    var job := JobOf(t, programs);
    if j > 0 {
      OwnBody(file, t, programs, j - 1);
      PackedPlaces(file, t, programs, j - 1);
      BodyNext(job, file, j - 1);
      var from, e := job.Cursor(j - 1), job.EntryIn(j - 1);
      if j > 1 { ZerosThere(file, from, e.offset); } else { NoneThere(file, from); }
      assert file[..from] + (file[from..e.offset] + file[e.offset..e.End()]) == file[..e.End()];
    }
  }

  lemma {:induction false} NoneThere(file: Buffer, at: nat)
    requires at <= |file|
    ensures file[at..at] == Zeros(0)
  {
  }

  lemma {:induction false} OwnPlaced(file: Buffer, t: Table, programs: seq<Buffer>)
    requires Own(file, t, programs) && Lists(Order(t.entries), |t.entries|) && Packed(t.entries, Order(t.entries))
    requires ZeroBetween(file, t.entries, Order(t.entries)) && Fits(t, programs)
    ensures Placed(file, t, programs) == file
  {
    hide ParseTable, Order, AlignUp, Pow2, Packed, ZeroBetween, TableEnd;
    var n := |programs|;
    OwnFacts(file, t, programs);
    OwnBody(file, t, programs, n);
    OwnEnd(file, t, programs, n);
    PackedPlaces(file, t, programs, n - 1);
    var end := JobOf(t, programs).Cursor(n);
    assert file[..end] + file[end..] == file;
  }

  lemma {:induction false} BigField(s: Buffer, at: nat)
    requires at + 4 <= |s|
    ensures BE32(B32(s, at)) == s[at..at + 4]
  {
    var a: int, b: int, c: int, d: int := s[at], s[at + 1], s[at + 2], s[at + 3];
    DigitsOfWord(d, c, b, a);
    assert s[at..at + 4] == [s[at], s[at + 1], s[at + 2], s[at + 3]];
  }

  lemma {:induction false} BigWide(s: Buffer, at: nat)
    requires at + 8 <= |s|
    ensures BE64(B64(s, at)) == s[at..at + 8]
  {
    hide BE32, B32;
    var a, b := B32(s, at), B32(s, at + 4);
    var v := b + LIMIT32 * a;
    assert v / LIMIT32 == a && v % LIMIT32 == b;
    BigField(s, at);
    BigField(s, at + 4);
    assert s[at..at + 8] == s[at..at + 4] + s[at + 4..at + 8];
  }

  /** Writing into a row what it already says changes nothing. */
  lemma {:induction false} SameRow(row: Buffer, wide: bool)
    requires |row| == EntrySize(wide)
    ensures var e := RowOf(row, wide); FieldsFit(wide, e.offset, e.size) && NewRow(row, wide, e.offset, e.size) == row
  {
    hide BE32, B32, BE64, B64, Put;
    if wide {
      BigWide(row, 8);
      BigWide(row, 16);
      assert row[8..24] == row[8..16] + row[16..24];
      PutSame(row, 8, 16);
    } else {
      BigField(row, 8);
      BigField(row, 12);
      assert row[8..16] == row[8..12] + row[12..16];
      PutSame(row, 8, 8);
    }
  }

  lemma {:induction false} OwnRow(file: Buffer, t: Table, programs: seq<Buffer>, out: Buffer, i: nat)
    requires Own(file, t, programs) && Assembled(file, t, programs, out) && |programs| > 0 && NewTable(t, programs) == t && i < |programs|
    ensures TableEnd(t.wide, |programs|) <= |file| && TableEnd(t.wide, |programs|) <= |out|
    ensures Row(out, t.wide, |programs|, i) == Row(file, t.wide, |programs|, i)
  {
    hide ParseTable, AssembleUniversal, NewTable, TableEnd, NewRow, Row, RowOf, EntrySize, FieldsFit;
    TableFacts(file);
    RowKept(file, t, programs, out, i);
    SameRow(Row(file, t.wide, |programs|, i), t.wide);
    assert t.entries[i] == EntryAt(file, t.wide, |programs|, i);
  }

  lemma {:induction false} OwnAround(file: Buffer, t: Table, programs: seq<Buffer>, out: Buffer)
    requires Own(file, t, programs) && Assembled(file, t, programs, out) && Placed(file, t, programs) == file
    ensures TableEnd(t.wide, |programs|) <= |out| && SameAround(out, file, TableEnd(t.wide, |programs|))
  {
    hide ParseTable, Order, AssembleUniversal, TableEnd, Fits, Retabled, FieldsFit, Placed;
    OwnFacts(file, t, programs);
    AssembledIs(file, t, programs, out);
    PlacedStarts(file, t, programs);
    AroundFile(file, t.wide, JobOf(t, programs).Offsets(|programs|), programs);
  }

  /** Putting the programs of a packed file back where they are gives the file. */
  lemma {:induction false} PackedAssembles(file: Buffer, t: Table, programs: seq<Buffer>)
    requires Own(file, t, programs) && Lists(Order(t.entries), |t.entries|) && Packed(t.entries, Order(t.entries))
    requires ZeroBetween(file, t.entries, Order(t.entries)) && Fits(t, programs) && forall i :: 0 <= i < |programs| ==> programs[i] != []
    ensures AssembleUniversal(file, t, programs) == Some(file)
  {
    hide ParseTable, Order, Packed, ZeroBetween, TableEnd, Fits, Row, AssembleUniversal, NewTable, SameAround, Placed;
    FitsAssembles(file, t, programs);
    var out, n := AssembleUniversal(file, t, programs).value, |programs|;
    PackedTable(file, t, programs);
    AssembledIs(file, t, programs, out);
    OwnPlaced(file, t, programs);
    OwnAround(file, t, programs, out);
    forall i: nat | i < n ensures Row(out, t.wide, n, i) == Row(file, t.wide, n, i) { OwnRow(file, t, programs, out, i); }
    OwnRow(file, t, programs, out, 0);
    RowsDetermine(out, file, t.wide, n);
  }

  lemma {:induction false} AroundFile(x: Buffer, wide: bool, offsets: seq<nat>, slices: seq<Buffer>)
    requires |offsets| == |slices| && TableEnd(wide, |slices|) <= |x|
    requires forall i :: 0 <= i < |slices| ==> FieldsFit(wide, offsets[i], |slices[i]|)
    ensures SameAround(Retabled(x, wide, offsets, slices, |slices|), x, TableEnd(wide, |slices|))
  {
    hide Retabled, FieldsFit;
    var n, end := |slices|, TableEnd(wide, |slices|);
    RetabledApart(x, wide, offsets, slices, n, 0, 8);
    RetabledApart(x, wide, offsets, slices, n, end, |x|);
    AroundIs(Retabled(x, wide, offsets, slices, n), x, end);
  }

  // ── The theorem ────────────────────────────────────────────

  /** How long an unsigned program is once it is signed. */
  function SignedSize(size: nat, identity: Buffer, capacity: nat): nat {
    Align16(size) + RegionSize(identity, Align16(size), capacity)
  }

  lemma {:induction false} SignedSizeIs(s: Buffer, l: Layout, identity: Buffer, capacity: nat, cms: Buffer, hash: Hash, cpu: Cpu)
    requires Describes(s, l) && l.facts.codesig.None? && Sign(s, identity, capacity, cms, hash, cpu).Some?
    ensures |Sign(s, identity, capacity, cms, hash, cpu).value| == SignedSize(|s|, identity, capacity)
  {
    hide ParseSlice, Rewritable, Reservable, Sign, Align16;
    SignIs(s, l, identity, capacity, cms, hash, cpu);
    DescribedPlaces(s, l);
  }

  /** A program whose length is a multiple of sixteen, with sixteen zeros after its commands, and whose link-edit segment
      has the size in memory that signing gives it. */
  predicate ComesBack(s: Buffer, l: Layout, identity: Buffer, capacity: nat, cpu: Cpu) {
    var end := SignedSize(|s|, identity, capacity);
    && l.facts.linkedit.Some? && l.HeaderEnd() + 16 <= |s| && 0 <= LinkSize(l, end)
    && |s| % 16 == 0 && s[l.HeaderEnd()..l.HeaderEnd() + 16] == Zeros(16)
    && l.facts.linkedit.value.vmsize == LinkMemory(l, end, cpu)
  }

  /** Each program of the signed file strips to what it was exactly when it comes back. */
  lemma {:induction false} OneComesBack(file: Buffer, t: Table, layouts: seq<Layout>, slices: seq<Buffer>, out: Buffer,
                                        identity: Buffer, capacity: nat, cms: seq<Buffer>, hash: Hash, i: nat)
    requires Signed(file, t, layouts, slices, out, identity, capacity, cms, hash) && i < |slices|
    ensures var s, cpu := ProgramOf(file, t.entries[i]), t.entries[i].RowCpu();
      s != [] && (StripSlice(slices[i], cpu) == Some(s) <==> ComesBack(s, layouts[i], identity, capacity, cpu))
  {
    hide ParseSlice, Sign, ParseTable, AssembleUniversal, ProgramOf, ZeroBetween, Order, StripSlice, SignFile, ParseContainer, LinkMemory, Zeros, StripsBack;
    SignedAssembled(file, t, layouts, slices, identity, capacity, cms, hash);
    LayoutsAre(file, t.entries, |slices|, i);
    var s, cpu := ProgramOf(file, t.entries[i]), t.entries[i].RowCpu();
    ThinStart(s);
    KindSigned(s, layouts[i], identity, capacity, cms[i], hash, cpu);
    SignedSizeIs(s, layouts[i], identity, capacity, cms[i], hash, cpu);
    StripExact(s, layouts[i], identity, capacity, cms[i], hash, cpu);
  }

  /** The file comes back exactly when its programs do and stand where assembling puts them. */
  ghost predicate FileComesBack(file: Buffer, t: Table, layouts: seq<Layout>, identity: Buffer, capacity: nat) {
    && |layouts| == |t.entries| && Lists(Order(t.entries), |t.entries|) && Packed(t.entries, Order(t.entries))
    && forall i :: 0 <= i < |layouts| ==> ComesBack(ProgramOf(file, t.entries[i]), layouts[i], identity, capacity, t.entries[i].RowCpu())
  }

  lemma {:induction false} ProgramsReturn(file: Buffer, t: Table, layouts: seq<Layout>, slices: seq<Buffer>, out: Buffer,
                                          identity: Buffer, capacity: nat, cms: seq<Buffer>, hash: Hash)
    requires Signed(file, t, layouts, slices, out, identity, capacity, cms, hash) && FileComesBack(file, t, layouts, identity, capacity)
    ensures StripFile(out) == Some(file)
  {
    hide ParseTable, AssembleUniversal, ProgramOf, ZeroBetween, Order, StripSlice, SignFile, StripFile, ParseContainer, Signed, Packed, ComesBack, Fits;
    var stripped := StripReassembles(file, t, layouts, slices, out, identity, capacity, cms, hash);
    forall i | 0 <= i < |slices| ensures stripped[i] == ProgramOf(file, t.entries[i]) && stripped[i] != [] {
      OneComesBack(file, t, layouts, slices, out, identity, capacity, cms, hash, i);
    }
    ZeroThere(file, t, layouts, slices, out, identity, capacity, cms, hash);
    PackedAssembles(file, t, stripped);
  }

  lemma {:induction false} ZeroThere(file: Buffer, t: Table, layouts: seq<Layout>, slices: seq<Buffer>, out: Buffer,
                                     identity: Buffer, capacity: nat, cms: seq<Buffer>, hash: Hash)
    requires Signed(file, t, layouts, slices, out, identity, capacity, cms, hash)
    ensures ZeroBetween(file, t.entries, Order(t.entries))
  {
    hide ParseTable, AssembleUniversal, ProgramOf, ZeroBetween, Order, SignFile, ParseContainer, Sign;
    SignedAssembled(file, t, layouts, slices, identity, capacity, cms, hash);
  }

  lemma {:induction false} FileReturned(file: Buffer, t: Table, layouts: seq<Layout>, slices: seq<Buffer>, out: Buffer,
                                        identity: Buffer, capacity: nat, cms: seq<Buffer>, hash: Hash)
    requires Signed(file, t, layouts, slices, out, identity, capacity, cms, hash) && StripFile(out) == Some(file)
    ensures FileComesBack(file, t, layouts, identity, capacity)
  {
    hide ParseTable, AssembleUniversal, ProgramOf, ZeroBetween, Order, StripSlice, SignFile, StripFile, ParseContainer, Packed, ComesBack, Fits, NewTable, ParseSlice, Sign;
    var stripped := StripReassembles(file, t, layouts, slices, out, identity, capacity, cms, hash);
    forall i | 0 <= i < |slices| ensures stripped[i] != [] && ParseSlice(stripped[i]).Some? {
      SignedBack(file, t, layouts, slices, out, identity, capacity, cms, hash, i);
      ThinStart(stripped[i]);
    }
    ThinStart(stripped[0]);
    TableBack(file, t, stripped, file);
    forall i | 0 <= i < |slices| ensures ComesBack(ProgramOf(file, t.entries[i]), layouts[i], identity, capacity, t.entries[i].RowCpu()) && stripped[i] == ProgramOf(file, t.entries[i]) {
      ProgramBack(file, t, stripped, file, i);
      OneComesBack(file, t, layouts, slices, out, identity, capacity, cms, hash, i);
    }
    PlacesPacked(file, t, stripped);
  }

  /** Signing a universal file of unsigned programs and stripping it gives the file back, byte for byte, if and only if
      every program comes back and each stands at the first multiple of its alignment after the one before it. */
  lemma {:induction false} StripFileExact(file: Buffer, t: Table, layouts: seq<Layout>, identity: Buffer, capacity: nat, cms: seq<Buffer>, hash: Hash)
    requires ParseContainer(file) == Some(Universal(t, layouts)) && SignFile(file, identity, capacity, cms, hash).Some?
    requires forall i :: 0 <= i < |layouts| ==> layouts[i].facts.codesig.None?
    ensures StripFile(SignFile(file, identity, capacity, cms, hash).value) == Some(file) <==> FileComesBack(file, t, layouts, identity, capacity)
  {
    hide ParseTable, ProgramOf, SignFile, StripFile, ParseContainer, FileComesBack, NewTable, Sign, SignedProgram;
    var out := SignFile(file, identity, capacity, cms, hash).value;
    var slices := SignedFile(file, t, layouts, identity, capacity, cms, hash);
    if FileComesBack(file, t, layouts, identity, capacity) { ProgramsReturn(file, t, layouts, slices, out, identity, capacity, cms, hash); }
    if StripFile(out) == Some(file) { FileReturned(file, t, layouts, slices, out, identity, capacity, cms, hash); }
  }
}
