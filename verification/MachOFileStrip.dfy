/** Stripping a universal file that was just signed: it never fails, what it gives, and when that is the first file. */
module MachOFileStrip {
  import opened Bytes
  import opened MachOLayout
  import opened MachOPlan
  import opened MachOSigner
  import opened MachOStrip
  import opened MachOUniversal
  import opened MachOAssemble
  import opened MachOReassemble
  import opened MachOFile

  // ── Shorter programs fit where longer ones did ─────────────

  lemma {:induction false} AlignUpMonotone(a: nat, b: nat, unit: nat)
    requires unit > 0 && a <= b
    ensures AlignUp(a, unit) <= AlignUp(b, unit)
  {
    AlignedUp(a, unit);
    AlignedUp(b, unit);
    var p, q := (a + unit - 1) / unit, (b + unit - 1) / unit;
    assert a + unit - 1 == p * unit + (a + unit - 1) % unit && b + unit - 1 == q * unit + (b + unit - 1) % unit;
    ProductBound(p, q, unit);
    Multiples(q, p, unit);
  }

  ghost predicate Shorter(slices: seq<Buffer>, others: seq<Buffer>) {
    |others| == |slices| && forall i :: 0 <= i < |slices| ==> |others[i]| <= |slices[i]|
  }

  lemma {:induction false} ShorterEnds(t: Table, slices: seq<Buffer>, others: seq<Buffer>, wide: bool, j: nat)
    requires |t.entries| == |slices| > 0 && Shorter(slices, others) && j <= |slices|
    ensures JobOf(t, slices).Valid() && JobOf(t, others).Valid()
    ensures JobOf(t, others).Cursor(j) <= JobOf(t, slices).Cursor(j)
    ensures JobOf(t, slices).Placeable(wide, j) ==> JobOf(t, others).Placeable(wide, j)
  {
    hide Order, AlignUp, Pow2;
    JobIsValid(t, slices);
    JobIsValid(t, others);
    if j > 0 {
      ShorterEnds(t, slices, others, wide, j - 1);
      AlignUpMonotone(JobOf(t, others).Cursor(j - 1), JobOf(t, slices).Cursor(j - 1), Pow2(JobOf(t, slices).EntryIn(j - 1).align));
    }
  }

  lemma {:induction false} ShorterFits(t: Table, slices: seq<Buffer>, others: seq<Buffer>)
    requires |t.entries| == |slices| > 0 && Shorter(slices, others) && Fits(t, slices)
    ensures Fits(t, others)
  {
    hide Order, AlignUp, Pow2;
    JobIsValid(t, others);
    ShorterEnds(t, slices, others, t.wide, |slices|);
  }

  // ── One program ────────────────────────────────────────────

  /** A signed program strips to one that is accepted and no longer. */
  lemma {:induction false} BackOne(s: Buffer, l: Layout, identity: Buffer, capacity: nat, cms: Buffer, hash: Hash, cpu: Cpu)
    requires ParseSlice(s) == Some(l) && l.facts.codesig.None? && Sign(s, identity, capacity, cms, hash, cpu).Some?
    ensures var t := Sign(s, identity, capacity, cms, hash, cpu).value;
      && StripsBack(t, s, l, cpu) && StripSlice(t, cpu).Some?
      && |StripSlice(t, cpu).value| <= |t| && ParseSlice(StripSlice(t, cpu).value).Some?
  {
    hide ParseSlice, Rewritable, Reservable, PlanOf, Restored, LinkMemory, StrippedLayout, Align16, Sign, StripSlice, Zeros;
    KindSigned(s, l, identity, capacity, cms, hash, cpu);
    StripSigned(s, l, identity, capacity, cms, hash, cpu);
  }

  lemma {:induction false} KindSigned(s: Buffer, l: Layout, identity: Buffer, capacity: nat, cms: Buffer, hash: Hash, cpu: Cpu)
    requires ParseSlice(s) == Some(l) && Sign(s, identity, capacity, cms, hash, cpu).Some?
    ensures Describes(s, l)
  {
    hide ParseSlice, PlanOf, Rewritable, Reservable;
  }

  // ── All programs ───────────────────────────────────────────

  /** The signed file, its programs, and those programs stripped. */
  ghost predicate Signed(file: Buffer, t: Table, layouts: seq<Layout>, slices: seq<Buffer>, out: Buffer,
                         identity: Buffer, capacity: nat, cms: seq<Buffer>, hash: Hash)
  {
    && ParseContainer(file) == Some(Universal(t, layouts)) && SignFile(file, identity, capacity, cms, hash) == Some(out)
    && (forall i :: 0 <= i < |layouts| ==> layouts[i].facts.codesig.None?)
    && |slices| == |t.entries| == |layouts| == |cms| && |slices| > 0
    && forall i :: 0 <= i < |slices| ==> Some(slices[i]) == Sign(ProgramOf(file, t.entries[i]), identity, capacity, cms[i], hash, t.entries[i].RowCpu())
  }

  ghost predicate StrippedTo(t: Table, slices: seq<Buffer>, stripped: seq<Buffer>) {
    && |stripped| == |slices| == |t.entries|
    && forall i :: 0 <= i < |slices| ==> StripSlice(slices[i], t.entries[i].RowCpu()) == Some(stripped[i])
  }

  /** One signed program of the file. */
  lemma {:induction false} SignedBack(file: Buffer, t: Table, layouts: seq<Layout>, slices: seq<Buffer>, out: Buffer,
                                      identity: Buffer, capacity: nat, cms: seq<Buffer>, hash: Hash, i: nat)
    requires Signed(file, t, layouts, slices, out, identity, capacity, cms, hash) && i < |slices|
    ensures Assembled(file, t, slices, out)
    ensures var cpu := t.entries[i].RowCpu();
      && ParseSlice(ProgramOf(file, t.entries[i])) == Some(layouts[i])
      && StripsBack(slices[i], ProgramOf(file, t.entries[i]), layouts[i], cpu) && StripSlice(slices[i], cpu).Some?
      && |StripSlice(slices[i], cpu).value| <= |slices[i]| && ParseSlice(StripSlice(slices[i], cpu).value).Some?
  {
    hide ParseSlice, Sign, ParseTable, AssembleUniversal, ProgramOf, ZeroBetween, Order, StripsBack, StripSlice, SignFile, ParseContainer;
    SignedAssembled(file, t, layouts, slices, identity, capacity, cms, hash);
    LayoutsAre(file, t.entries, |slices|, i);
    BackOne(ProgramOf(file, t.entries[i]), layouts[i], identity, capacity, cms[i], hash, t.entries[i].RowCpu());
  }

  /** The same program in the new file. */
  lemma {:induction false} SignedThere(file: Buffer, t: Table, layouts: seq<Layout>, slices: seq<Buffer>, out: Buffer,
                                       identity: Buffer, capacity: nat, cms: seq<Buffer>, hash: Hash, i: nat)
    requires Signed(file, t, layouts, slices, out, identity, capacity, cms, hash) && i < |slices|
    ensures var e := NewTable(t, slices).entries[i];
      && ProgramOf(out, e) == slices[i] && e.RowCpu() == t.entries[i].RowCpu() && StripSlice(slices[i], e.RowCpu()).Some?
  {
    hide ParseSlice, ProgramOf, StripsBack, StripSlice, NewTable, Entry.RowCpu, Assembled, ParseContainer, SignFile;
    SignedBack(file, t, layouts, slices, out, identity, capacity, cms, hash, i);
    ProgramBack(file, t, slices, out, i);
    NewCpu(t, slices, i);
  }

  /** Every program of the signed file can be stripped. */
  lemma {:induction false} StripAllIs(file: Buffer, t: Table, layouts: seq<Layout>, slices: seq<Buffer>, out: Buffer,
                                      identity: Buffer, capacity: nat, cms: seq<Buffer>, hash: Hash, n: nat)
    requires Signed(file, t, layouts, slices, out, identity, capacity, cms, hash) && n <= |slices|
    ensures |NewTable(t, slices).entries| == |slices| && StripAll(out, NewTable(t, slices).entries, n).Some?
    ensures forall i :: 0 <= i < n ==> StripSlice(slices[i], t.entries[i].RowCpu()) == Some(StripAll(out, NewTable(t, slices).entries, n).value[i])
  {
    hide ParseSlice, ProgramOf, StripsBack, StripSlice, Signed, NewTable, Entry.RowCpu;
    SignedSizes(file, t, layouts, slices, out, identity, capacity, cms, hash);
    if n > 0 {
      StripAllIs(file, t, layouts, slices, out, identity, capacity, cms, hash, n - 1);
      SignedThere(file, t, layouts, slices, out, identity, capacity, cms, hash, n - 1);
    }
  }

  lemma {:induction false} SignedSizes(file: Buffer, t: Table, layouts: seq<Layout>, slices: seq<Buffer>, out: Buffer,
                                       identity: Buffer, capacity: nat, cms: seq<Buffer>, hash: Hash)
    requires Signed(file, t, layouts, slices, out, identity, capacity, cms, hash)
    ensures |slices| == |t.entries| == |layouts| == |NewTable(t, slices).entries| && |slices| > 0
  {
  }

  /** What stripping does with a universal file that is all signed programs. */
  lemma {:induction false} StripFileIs(file: Buffer, t: Table, layouts: seq<Layout>)
    requires ParseContainer(file) == Some(Universal(t, layouts)) && ZeroBetween(file, t.entries, Order(t.entries)) && |layouts| > 0
    requires forall i :: 0 <= i < |layouts| ==> layouts[i].kind == Thin64Little && layouts[i].facts.codesig.Some?
    ensures ParseTable(file) == Some(t)
    ensures StripFile(file) ==
      var slices := StripAll(file, t.entries, |t.entries|);
      if slices.None? then None else AssembleUniversal(file, t, slices.value)
  {
    hide ParseTable, AssembleUniversal, ZeroBetween, Classify, Order, StripAll, Layouts, ParseSlice;
    assert layouts[0].facts.codesig.Some?;
  }

  lemma {:induction false} SignedKinds(s: Buffer, r: Buffer, l: Layout, m: Layout, cpu: Cpu)
    requires SignedProgram(s, r, l, m, cpu)
    ensures m.kind == Thin64Little && m.facts.codesig.Some?
  {
  }

  /** Stripping a file that was just signed is putting the stripped programs into the unsigned one, and that succeeds. */
  lemma {:induction false} StripReassembles(file: Buffer, t: Table, layouts: seq<Layout>, slices: seq<Buffer>, out: Buffer,
                                            identity: Buffer, capacity: nat, cms: seq<Buffer>, hash: Hash) returns (stripped: seq<Buffer>)
    requires Signed(file, t, layouts, slices, out, identity, capacity, cms, hash)
    ensures StrippedTo(t, slices, stripped) && ParseTable(file) == Some(t) && Assembled(file, t, slices, out)
    ensures StripFile(out).Some? && StripFile(out) == AssembleUniversal(file, t, stripped)
    ensures ParseTable(out) == Some(NewTable(t, slices)) && StripFile(out) == AssembleUniversal(out, NewTable(t, slices), stripped)
    ensures Fits(t, stripped)
  {
    hide ParseSlice, Sign, SignedProgram, ParseTable, AssembleUniversal, NewTable, ProgramOf, ZeroBetween, Classify, Order, StripSlice, StripsBack;
    hide SignFile, StripFile, ParseContainer, StripAll, Fits;
    var n, u := |slices|, NewTable(t, slices);
    var same := SignedFile(file, t, layouts, identity, capacity, cms, hash);
    assert same == slices;
    SignedAssembled(file, t, layouts, slices, identity, capacity, cms, hash);
    ZeroAfterwards(file, t, slices, out);
    SignedSizes(file, t, layouts, slices, out, identity, capacity, cms, hash);
    StripAllIs(file, t, layouts, slices, out, identity, capacity, cms, hash, n);
    stripped := StripAll(out, u.entries, n).value;
    var ls := ParseContainer(out).value.layouts;
    forall i | 0 <= i < n ensures ls[i].kind == Thin64Little && ls[i].facts.codesig.Some? && |stripped[i]| <= |slices[i]| {
      SignedKinds(ProgramOf(file, t.entries[i]), slices[i], layouts[i], ls[i], t.entries[i].RowCpu());
      SignedBack(file, t, layouts, slices, out, identity, capacity, cms, hash, i);
    }
    StripFileIs(out, u, ls);
    ThinStart(slices[0]);
    AssembledIs(file, t, slices, out);
    ShorterFits(t, slices, stripped);
    AssemblingAgain(file, t, slices, out, stripped);
    FitsAssembles(file, t, stripped);
  }

  lemma {:induction false} FitsAssembles(file: Buffer, t: Table, slices: seq<Buffer>)
    requires ParseTable(file) == Some(t) && |slices| == |t.entries| && Fits(t, slices)
    ensures AssembleUniversal(file, t, slices).Some?
  {
    hide ParseTable, Fits, Retabled, Order;
  }

  /** Stripping a universal file that was just signed succeeds and gives a file of the same form and order. Its programs
      are the signed ones stripped: each is what StripsBack says of the unsigned one, and is accepted as that was. */
  lemma {:induction false} StrippedFile(file: Buffer, t: Table, layouts: seq<Layout>, identity: Buffer, capacity: nat, cms: seq<Buffer>, hash: Hash)
    returns (slices: seq<Buffer>, stripped: seq<Buffer>)
    requires ParseContainer(file) == Some(Universal(t, layouts)) && SignFile(file, identity, capacity, cms, hash).Some?
    requires forall i :: 0 <= i < |layouts| ==> layouts[i].facts.codesig.None?
    ensures |slices| == |stripped| == |t.entries| == |layouts| == |cms| && |slices| > 0
    ensures forall i :: 0 <= i < |slices| ==> var cpu := t.entries[i].RowCpu();
      && Some(slices[i]) == Sign(ProgramOf(file, t.entries[i]), identity, capacity, cms[i], hash, cpu)
      && StripSlice(slices[i], cpu) == Some(stripped[i])
      && StripsBack(slices[i], ProgramOf(file, t.entries[i]), layouts[i], cpu)
    ensures StripFile(SignFile(file, identity, capacity, cms, hash).value).Some?
    ensures var r := StripFile(SignFile(file, identity, capacity, cms, hash).value).value;
      var back := ParseContainer(r);
      && back.Some? && back.value.Universal? && |back.value.layouts| == |layouts|
      && back.value.table == NewTable(NewTable(t, slices), stripped)
      && forall i :: 0 <= i < |layouts| ==>
           Some(back.value.layouts[i]) == ParseSlice(stripped[i]) && ProgramOf(r, back.value.table.entries[i]) == stripped[i]
  {
    hide ParseSlice, Sign, SignedProgram, ParseTable, AssembleUniversal, NewTable, ProgramOf, ZeroBetween, Classify, Order, StripSlice, StripsBack;
    hide SignFile, StripFile, ParseContainer, Fits;
    var out := SignFile(file, identity, capacity, cms, hash).value;
    slices := SignedFile(file, t, layouts, identity, capacity, cms, hash);
    SignedSizes(file, t, layouts, slices, out, identity, capacity, cms, hash);
    stripped := StripReassembles(file, t, layouts, slices, out, identity, capacity, cms, hash);
    var u, r := NewTable(t, slices), StripFile(out).value;
    forall i | 0 <= i < |slices|
      ensures StripsBack(slices[i], ProgramOf(file, t.entries[i]), layouts[i], t.entries[i].RowCpu())
      ensures stripped[i] != [] && ParseSlice(stripped[i]).Some?
    {
      SignedBack(file, t, layouts, slices, out, identity, capacity, cms, hash, i);
      ThinStart(stripped[i]);
    }
    AssembledParses(out, u, stripped, r);
    forall i | 0 <= i < |slices| ensures ProgramOf(r, NewTable(u, stripped).entries[i]) == stripped[i] { ProgramBack(out, u, stripped, r, i); }
  }
}
