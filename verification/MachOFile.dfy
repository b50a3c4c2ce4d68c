/** Signing and stripping a whole file, of one program or of several, and what signing gives. */
module MachOFile {
  import opened Bytes
  import opened MachOLayout
  import opened MachOPlan
  import opened MachOSigner
  import opened MachOStrip
  import opened MachOUniversal
  import opened MachOAssemble
  import opened MachOReassemble
  import opened MachOAgain

  /** Bytes between two programs are not carried over, so they must be zero. */
  predicate ZeroBetween(file: Buffer, es: seq<Entry>, o: seq<nat>) {
    forall k :: 1 <= k < |o| && o[k - 1] < |es| && o[k] < |es| ==>
      es[o[k - 1]].End() > |file| || es[o[k]].offset > |file| || AllZeroFrom(file, es[o[k - 1]].End(), es[o[k]].offset)
  }

  predicate AllZeroFrom(file: Buffer, from: nat, to: nat)
    requires to <= |file|
  {
    forall at :: from <= at < to ==> file[at] == 0
  }

  /** The program of an entry; nothing outside the file. */
  function ProgramOf(file: Buffer, e: Entry): Buffer {
    if RangeFits(e.offset, e.size, |file|) then file[e.offset..e.End()] else []
  }

  /** The first n programs, each signed with its own CMS. */
  function SignAll(file: Buffer, es: seq<Entry>, identity: Buffer, capacity: nat, cms: seq<Buffer>, hash: Hash, n: nat): (r: Option<seq<Buffer>>)
    requires n <= |es| == |cms|
    ensures r.Some? ==> |r.value| == n
  {
    if n == 0 then Some([])
    else
      var before :- SignAll(file, es, identity, capacity, cms, hash, n - 1);
      var s :- Sign(ProgramOf(file, es[n - 1]), identity, capacity, cms[n - 1], hash, es[n - 1].RowCpu());
      Some(before + [s])
  }

  /** Prepare and complete: every program is signed, or nothing is written. */
  function SignFile(file: Buffer, identity: Buffer, capacity: nat, cms: seq<Buffer>, hash: Hash): Option<Buffer> {
    var c :- ParseContainer(file);
    match c
    case Thin(l) => if |cms| != 1 then None else Sign(file, identity, capacity, cms[0], hash, l.HeaderCpu())
    case Universal(t, _) =>
      if |cms| != |t.entries| || !ZeroBetween(file, t.entries, Order(t.entries)) then None
      else
        var slices :- SignAll(file, t.entries, identity, capacity, cms, hash, |cms|);
        assert ParseTable(file) == Some(t);
        AssembleUniversal(file, t, slices)
  }

  /** The first n programs without their signatures. */
  function StripAll(file: Buffer, es: seq<Entry>, n: nat): (r: Option<seq<Buffer>>)
    requires n <= |es|
    ensures r.Some? ==> |r.value| == n
  {
    if n == 0 then Some([])
    else
      var before :- StripAll(file, es, n - 1);
      var s :- StripSlice(ProgramOf(file, es[n - 1]), es[n - 1].RowCpu());
      Some(before + [s])
  }

  /** None is a refusal. Without a signature anywhere the result is the file. */
  function StripFile(file: Buffer): Option<Buffer> {
    var c :- ParseContainer(file);
    match c
    case Thin(l) => StripSlice(file, l.HeaderCpu())
    case Universal(t, layouts) =>
      if (exists i :: 0 <= i < |layouts| && layouts[i].kind != Thin64Little) || !ZeroBetween(file, t.entries, Order(t.entries)) then None
      else if forall i :: 0 <= i < |layouts| ==> layouts[i].facts.codesig.None? then Some(file)
      else
        var slices :- StripAll(file, t.entries, |t.entries|);
        assert ParseTable(file) == Some(t);
        AssembleUniversal(file, t, slices)
  }

  // ── What signing a universal file gives ────────────────────

  lemma {:induction false} LayoutsAre(file: Buffer, es: seq<Entry>, n: nat, i: nat)
    requires i < n <= |es| && Layouts(file, es, n).Some?
    ensures ParseSlice(ProgramOf(file, es[i])) == Some(Layouts(file, es, n).value[i])
  {
    hide ParseSlice;
    if i < n - 1 { LayoutsAre(file, es, n - 1, i); }
  }

  lemma {:induction false} SignAllAre(file: Buffer, es: seq<Entry>, identity: Buffer, capacity: nat, cms: seq<Buffer>, hash: Hash, n: nat, i: nat)
    requires i < n <= |es| == |cms| && SignAll(file, es, identity, capacity, cms, hash, n).Some?
    ensures Sign(ProgramOf(file, es[i]), identity, capacity, cms[i], hash, es[i].RowCpu())
         == Some(SignAll(file, es, identity, capacity, cms, hash, n).value[i])
  {
    hide Sign;
    if i < n - 1 { SignAllAre(file, es, identity, capacity, cms, hash, n - 1, i); }
  }

  /** One program of the new file against the one it was. */
  ghost predicate SignedProgram(s: Buffer, t: Buffer, l: Layout, m: Layout, cpu: Cpu) {
    Align16(|s|) <= |t| && SignedLayout(l, m, Align16(|s|), |t| - Align16(|s|), cpu)
  }

  lemma {:induction false} SignsOne(s: Buffer, l: Layout, identity: Buffer, capacity: nat, cms: Buffer, hash: Hash, cpu: Cpu)
    requires ParseSlice(s) == Some(l) && l.facts.codesig.None? && Sign(s, identity, capacity, cms, hash, cpu).Some?
    ensures var t := Sign(s, identity, capacity, cms, hash, cpu).value;
      t != [] && ParseSlice(t).Some? && SignedProgram(s, t, l, ParseSlice(t).value, cpu)
  {
    hide ParseSlice, SignedLayout, PlanOf, Rewritable, Reservable, Align16;
    SignedParses(s, l, identity, capacity, cms, hash, cpu);
    ThinStart(Sign(s, identity, capacity, cms, hash, cpu).value);
  }

  /** Signing a universal file of unsigned programs gives a universal file of the same form with the same entries in the
      same order, each at its new place and holding its program signed. */
  lemma {:induction false} SignedFile(file: Buffer, t: Table, layouts: seq<Layout>, identity: Buffer, capacity: nat, cms: seq<Buffer>, hash: Hash)
    returns (slices: seq<Buffer>)
    requires ParseContainer(file) == Some(Universal(t, layouts)) && SignFile(file, identity, capacity, cms, hash).Some?
    requires forall i :: 0 <= i < |layouts| ==> layouts[i].facts.codesig.None?
    ensures |slices| == |t.entries| == |layouts| == |cms| && |slices| > 0
    ensures forall i :: 0 <= i < |slices| ==> Some(slices[i]) == Sign(ProgramOf(file, t.entries[i]), identity, capacity, cms[i], hash, t.entries[i].RowCpu())
    ensures var out := ParseContainer(SignFile(file, identity, capacity, cms, hash).value);
      && out.Some? && out.value.Universal? && out.value.table == NewTable(t, slices) && |out.value.layouts| == |slices|
      && forall i :: 0 <= i < |slices| ==> SignedProgram(ProgramOf(file, t.entries[i]), slices[i], layouts[i], out.value.layouts[i], t.entries[i].RowCpu())
    ensures forall i :: 0 <= i < |slices| ==>
      ProgramOf(SignFile(file, identity, capacity, cms, hash).value, NewTable(t, slices).entries[i]) == slices[i]
  {
    hide ParseSlice, Sign, SignedProgram, ParseTable, AssembleUniversal, NewTable, ProgramOf, ZeroBetween, Classify, Order;
    var n := |t.entries|;
    slices := SignAll(file, t.entries, identity, capacity, cms, hash, n).value;
    forall i | 0 <= i < n
      ensures slices[i] != [] && ParseSlice(slices[i]).Some?
      ensures SignedProgram(ProgramOf(file, t.entries[i]), slices[i], layouts[i], ParseSlice(slices[i]).value, t.entries[i].RowCpu())
      ensures Some(slices[i]) == Sign(ProgramOf(file, t.entries[i]), identity, capacity, cms[i], hash, t.entries[i].RowCpu())
    {
      LayoutsAre(file, t.entries, n, i);
      SignAllAre(file, t.entries, identity, capacity, cms, hash, n, i);
      SignsOne(ProgramOf(file, t.entries[i]), layouts[i], identity, capacity, cms[i], hash, t.entries[i].RowCpu());
    }
    var out := SignFile(file, identity, capacity, cms, hash).value;
    AssembledParses(file, t, slices, out);
    forall i | 0 <= i < n ensures ProgramOf(out, NewTable(t, slices).entries[i]) == slices[i] { ProgramBack(file, t, slices, out, i); }
  }

  // ── Signing a universal file again ─────────────────────────

  /** A file that was just assembled can be assembled over: nothing but zeros lies between its programs. */
  lemma {:induction false} ZeroAfterwards(file: Buffer, t: Table, slices: seq<Buffer>, out: Buffer)
    requires Assembled(file, t, slices, out)
    ensures ZeroBetween(out, NewTable(t, slices).entries, Order(NewTable(t, slices).entries))
  {
    hide ParseTable, Order, AssembleUniversal, NewTable, AllZeroFrom;
    SameOrder(file, t, slices, out);
    JobIsValid(t, slices);
    var es, o := NewTable(t, slices).entries, Order(t.entries);
    forall k | 1 <= k < |o| && o[k - 1] < |es| && o[k] < |es|
      ensures es[o[k - 1]].End() > |out| || es[o[k]].offset > |out| || AllZeroFrom(out, es[o[k - 1]].End(), es[o[k]].offset)
    {
      NewEntry(t, slices, k - 1);
      NewEntry(t, slices, k);
      PlaceAligned(JobOf(t, slices), k - 1);
      GapInFile(file, t, slices, out, k);
      Gap(out, es[o[k - 1]].End(), es[o[k]].offset);
    }
  }

  lemma {:induction false} Gap(file: Buffer, from: nat, to: nat)
    requires to <= |file| && forall at :: from <= at < to ==> file[at] == 0
    ensures AllZeroFrom(file, from, to)
  {
  }

  lemma {:induction false} ProgramBack(file: Buffer, t: Table, slices: seq<Buffer>, out: Buffer, i: nat)
    requires Assembled(file, t, slices, out) && i < |slices|
    ensures ProgramOf(out, NewTable(t, slices).entries[i]) == slices[i]
  {
    hide ParseTable, AssembleUniversal, NewTable, HoldsAt;
    ProgramHeld(file, t, slices, out, i);
    NewSize(t, slices, i);
    HeldRange(out, NewTable(t, slices).entries[i], slices[i]);
  }

  lemma {:induction false} NewCpu(t: Table, slices: seq<Buffer>, i: nat)
    requires |t.entries| == |slices| > 0 && i < |slices|
    ensures NewTable(t, slices).entries[i].RowCpu() == t.entries[i].RowCpu()
  {
  }

  /** Signing every program of the new file is signing every program of the old one. */
  lemma {:induction false} SignAllAgain(file: Buffer, t: Table, layouts: seq<Layout>, slices: seq<Buffer>, out: Buffer,
                                        identity: Buffer, capacity: nat, cms: seq<Buffer>,
                                        identity': Buffer, capacity': nat, cms': seq<Buffer>, hash: Hash, n: nat)
    requires Assembled(file, t, slices, out) && n <= |slices| == |cms| == |cms'| == |layouts|
    requires Layouts(file, t.entries, |slices|) == Some(layouts) && forall i :: 0 <= i < |layouts| ==> layouts[i].facts.codesig.None?
    requires SignAll(file, t.entries, identity, capacity, cms, hash, |slices|) == Some(slices)
    ensures SignAll(out, NewTable(t, slices).entries, identity', capacity', cms', hash, n)
         == SignAll(file, t.entries, identity', capacity', cms', hash, n)
  {
    hide ParseTable, AssembleUniversal, NewTable, ParseSlice, Sign, ProgramOf;
    if n > 0 {
      SignAllAgain(file, t, layouts, slices, out, identity, capacity, cms, identity', capacity', cms', hash, n - 1);
      ProgramBack(file, t, slices, out, n - 1);
      NewCpu(t, slices, n - 1);
      SignAllAre(file, t.entries, identity, capacity, cms, hash, |slices|, n - 1);
      LayoutsAre(file, t.entries, |slices|, n - 1);
      AgainOne(ProgramOf(file, t.entries[n - 1]), layouts[n - 1], identity, capacity, cms[n - 1], identity', capacity', cms'[n - 1], hash, t.entries[n - 1].RowCpu());
    }
  }

  lemma {:induction false} AgainOne(s: Buffer, l: Layout, identity: Buffer, capacity: nat, cms: Buffer,
                                    identity': Buffer, capacity': nat, cms': Buffer, hash: Hash, cpu: Cpu)
    requires ParseSlice(s) == Some(l) && l.facts.codesig.None? && Sign(s, identity, capacity, cms, hash, cpu).Some?
    ensures Sign(Sign(s, identity, capacity, cms, hash, cpu).value, identity', capacity', cms', hash, cpu) == Sign(s, identity', capacity', cms', hash, cpu)
  {
    hide ParseSlice, PlanOf, Rewritable, Reservable;
    LastSigningWins(s, l, identity, capacity, cms, identity', capacity', cms', hash, cpu);
  }

  /** The signed file was assembled from the signed programs, each of which is accepted. */
  lemma {:induction false} SignedAssembled(file: Buffer, t: Table, layouts: seq<Layout>, slices: seq<Buffer>,
                                           identity: Buffer, capacity: nat, cms: seq<Buffer>, hash: Hash)
    requires ParseContainer(file) == Some(Universal(t, layouts)) && SignFile(file, identity, capacity, cms, hash).Some?
    requires forall i :: 0 <= i < |layouts| ==> layouts[i].facts.codesig.None?
    requires |slices| == |t.entries| == |layouts| == |cms|
    requires forall i :: 0 <= i < |slices| ==> Some(slices[i]) == Sign(ProgramOf(file, t.entries[i]), identity, capacity, cms[i], hash, t.entries[i].RowCpu())
    ensures ParseTable(file) == Some(t) && Layouts(file, t.entries, |slices|) == Some(layouts)
    ensures SignAll(file, t.entries, identity, capacity, cms, hash, |slices|) == Some(slices) && ZeroBetween(file, t.entries, Order(t.entries))
    ensures Assembled(file, t, slices, SignFile(file, identity, capacity, cms, hash).value)
    ensures forall i :: 0 <= i < |slices| ==> ParseSlice(slices[i]).Some?
  {
    hide ParseSlice, Sign, SignedProgram, ParseTable, AssembleUniversal, ProgramOf, ZeroBetween, Classify, Order;
    SignAllIs(file, t.entries, identity, capacity, cms, hash, slices);
    forall i | 0 <= i < |slices| ensures slices[i] != [] && ParseSlice(slices[i]).Some? {
      LayoutsAre(file, t.entries, |slices|, i);
      SignsOne(ProgramOf(file, t.entries[i]), layouts[i], identity, capacity, cms[i], hash, t.entries[i].RowCpu());
    }
  }

  /** Whatever is known of a universal file, signing it is signing and assembling its programs. */
  lemma {:induction false} SignFileIs(file: Buffer, t: Table, layouts: seq<Layout>, identity: Buffer, capacity: nat, cms: seq<Buffer>, hash: Hash)
    requires ParseContainer(file) == Some(Universal(t, layouts)) && ZeroBetween(file, t.entries, Order(t.entries))
    ensures ParseTable(file) == Some(t)
    ensures SignFile(file, identity, capacity, cms, hash) ==
      if |cms| != |t.entries| then None
      else
        var slices := SignAll(file, t.entries, identity, capacity, cms, hash, |cms|);
        if slices.None? then None else AssembleUniversal(file, t, slices.value)
  {
    hide ParseTable, AssembleUniversal, ZeroBetween, Classify, Order, SignAll, Layouts, ParseSlice;
  }

  /** Signing a universal file again gives what signing it that way in the first place gives. */
  lemma {:induction false} LastFileSigningWins(file: Buffer, t: Table, layouts: seq<Layout>, identity: Buffer, capacity: nat, cms: seq<Buffer>,
                                               identity': Buffer, capacity': nat, cms': seq<Buffer>, hash: Hash)
    requires ParseContainer(file) == Some(Universal(t, layouts)) && SignFile(file, identity, capacity, cms, hash).Some?
    requires forall i :: 0 <= i < |layouts| ==> layouts[i].facts.codesig.None?
    ensures SignFile(SignFile(file, identity, capacity, cms, hash).value, identity', capacity', cms', hash)
         == SignFile(file, identity', capacity', cms', hash)
  {
    hide ParseSlice, Sign, SignedProgram, ParseTable, AssembleUniversal, NewTable, ProgramOf, ZeroBetween, Classify, Order, SignFile, ParseContainer, SignAll, Layouts;
    var out := SignFile(file, identity, capacity, cms, hash).value;
    var slices := SignedFile(file, t, layouts, identity, capacity, cms, hash);
    SignedAssembled(file, t, layouts, slices, identity, capacity, cms, hash);
    ZeroAfterwards(file, t, slices, out);
    SignFileIs(file, t, layouts, identity', capacity', cms', hash);
    SignFileIs(out, NewTable(t, slices), ParseContainer(out).value.layouts, identity', capacity', cms', hash);
    if |cms'| == |slices| {
      SignAllAgain(file, t, layouts, slices, out, identity, capacity, cms, identity', capacity', cms', hash, |slices|);
      ThinStart(slices[0]);
      var others := SignAll(file, t.entries, identity', capacity', cms', hash, |slices|);
      if others.Some? { AssemblingAgain(file, t, slices, out, others.value); }
    }
  }

  /** The signed programs are determined by what signing each gives. */
  lemma {:induction false} SignAllIs(file: Buffer, es: seq<Entry>, identity: Buffer, capacity: nat, cms: seq<Buffer>, hash: Hash, slices: seq<Buffer>)
    requires |es| == |cms| == |slices| && SignAll(file, es, identity, capacity, cms, hash, |es|).Some?
    requires forall i :: 0 <= i < |slices| ==> Some(slices[i]) == Sign(ProgramOf(file, es[i]), identity, capacity, cms[i], hash, es[i].RowCpu())
    ensures SignAll(file, es, identity, capacity, cms, hash, |es|) == Some(slices)
  {
    hide Sign, ProgramOf;
    var all := SignAll(file, es, identity, capacity, cms, hash, |es|).value;
    forall i | 0 <= i < |es| ensures all[i] == slices[i] { SignAllAre(file, es, identity, capacity, cms, hash, |es|, i); }
    assert all == slices;
  }
}
