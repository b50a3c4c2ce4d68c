/** Removing a signature: its command taken out of the table, the data cut off, the link-edit segment ended at the cut. */
module MachOStrip {
  import opened Bytes
  import opened MachOLayout
  import opened MachORewrite
  import opened MachOPlan
  import opened MachOSigned
  import opened MachOSigner
  import opened MachOAgain
  import opened MachOSuperBlob

  /** No buffer is larger. */
  const LARGEST: nat := 0x7FFF_FFFF_FFFF_FFFF

  // ── The order of the commands ──────────────────────────────

  ghost predicate Ordered(cs: seq<Command>, end: nat) {
    && (forall i :: 0 <= i < |cs| ==> HEADER <= cs[i].at && cs[i].size >= 8 && cs[i].at + cs[i].size <= end)
    && (forall i, j :: 0 <= i < j < |cs| ==> cs[i].at + cs[i].size <= cs[j].at)
  }

  /** The segment and the signature are each one of the commands. */
  ghost predicate Chained(f: Facts, end: nat) {
    && Ordered(f.commands, end)
    && (f.linkedit.Some? ==> exists i :: 0 <= i < |f.commands| && f.commands[i].at == f.linkedit.value.at && f.commands[i].size >= 72)
    && (f.codesig.Some? ==> exists i :: 0 <= i < |f.commands| && f.commands[i].at == f.codesig.value.at && f.commands[i].size >= 16)
  }

  /** A command brings in at most itself. */
  lemma {:induction false} AddNames(f: Facts, c: Buffer, at: nat, size: nat, headerEnd: nat)
    requires Add(f, c, at, size, headerEnd).Some?
    ensures var g := Add(f, c, at, size, headerEnd).value;
      && (g.linkedit == f.linkedit || (g.linkedit.Some? && g.linkedit.value.at == at && |c| >= 72))
      && (g.codesig == f.codesig || (g.codesig.Some? && g.codesig.value.at == at && |c| >= 16))
  {
    hide U32, U64, SectionsFrom, ByteSpan.StringAt, NameOf;
  }

  lemma {:induction false} AddChained(f: Facts, c: Buffer, at: nat, size: nat, headerEnd: nat)
    requires Chained(f, at) && HEADER <= at && Add(f, c, at, size, headerEnd).Some?
    ensures Chained(Add(f, c, at, size, headerEnd).value, at + |c|)
    ensures |Add(f, c, at, size, headerEnd).value.commands| == |f.commands| + 1
  {
    hide Add, U32;
    AddGrows(f, c, at, size, headerEnd);
    AddNames(f, c, at, size, headerEnd);
    var g := Add(f, c, at, size, headerEnd).value;
    assert g.commands[|f.commands|] == Command(at, U32(c, 0), |c|);
    if f.linkedit.Some? {
      var i :| 0 <= i < |f.commands| && f.commands[i].at == f.linkedit.value.at && f.commands[i].size >= 72;
      assert g.commands[i] == f.commands[i];
    }
    if f.codesig.Some? {
      var i :| 0 <= i < |f.commands| && f.commands[i].at == f.codesig.value.at && f.commands[i].size >= 16;
      assert g.commands[i] == f.commands[i];
    }
  }

  lemma {:induction false} KnownChained(cs: seq<Buffer>, i: nat, size: nat, headerEnd: nat)
    requires i <= |cs| && Known(cs[..i], size, headerEnd).Some?
    ensures Chained(Known(cs[..i], size, headerEnd).value, PlaceOf(cs[..i])) && |Known(cs[..i], size, headerEnd).value.commands| == i
  {
    hide Add, Chained;
    if i > 0 {
      KnownStep(cs, i - 1, size, headerEnd);
      KnownChained(cs, i - 1, size, headerEnd);
      AddChained(Known(cs[..i - 1], size, headerEnd).value, cs[i - 1], PlaceOf(cs[..i - 1]), size, headerEnd);
      JoinStep(cs, i - 1);
    } else {
      NothingChained(size);
    }
  }

  lemma {:induction false} NothingChained(size: nat)
    ensures Chained(NoFacts(size), HEADER)
  {
  }

  lemma {:induction false} DescribedChained(s: Buffer, l: Layout)
    requires Describes(s, l)
    ensures Chained(l.facts, l.HeaderEnd()) && |l.facts.commands| == l.ncmds
  {
    hide ParseSlice, Add, Chained;
    KindIs(s, l);
    var cs := ParsedApart(s);
    assert cs[..|cs|] == cs;
    KnownChained(cs, |cs|, |s|, l.HeaderEnd());
  }

  // ── Stripping ──────────────────────────────────────────────

  /** The size of the command that stands there; the last one found counts. */
  function SizeAt(cs: seq<Command>, at: nat): nat {
    if cs == [] then SIGNATURE_COMMAND
    else if cs[|cs| - 1].at == at then cs[|cs| - 1].size
    else SizeAt(cs[..|cs| - 1], at)
  }

  method FindSize(cs: seq<Command>, at: nat) returns (size: nat)
    ensures size == SizeAt(cs, at)
  {
    size := SIGNATURE_COMMAND;
    for i := 0 to |cs|
      invariant size == SizeAt(cs[..i], at)
    {
      assert cs[..i + 1][..i] == cs[..i];
      if cs[i].at == at { size := cs[i].size; }
    }
    assert cs[..|cs|] == cs;
  }

  lemma {:induction false} SizeAtIs(cs: seq<Command>, i: nat, end: nat)
    requires Ordered(cs, end) && i < |cs|
    ensures SizeAt(cs, cs[i].at) == cs[i].size
    decreases |cs|
  {
    if i < |cs| - 1 { SizeAtIs(cs[..|cs| - 1], i, end); }
  }

  /** Where the link-edit command stands once the signature command before it, if it was before it, is gone. */
  function LinkeditPlace(l: Layout): int
    requires l.facts.linkedit.Some? && l.facts.codesig.Some?
  {
    var at, sig := l.facts.linkedit.value.at, l.facts.codesig.value.at;
    if at > sig then at - SizeAt(l.facts.commands, sig) else at
  }

  predicate Strippable(l: Layout) {
    l.facts.codesig.Some? && KeptEnd(l).Some? && l.facts.linkedit.Some? && l.facts.linkedit.value.fileoff <= KeptEnd(l).value
  }

  lemma {:induction false} StripPlaces(s: Buffer, l: Layout)
    requires Describes(s, l) && Strippable(l)
    ensures var at, size := l.facts.codesig.value.at, SizeAt(l.facts.commands, l.facts.codesig.value.at);
      && HEADER <= at && at + size <= l.HeaderEnd() <= KeptEnd(l).value <= |s|
      && HEADER <= LinkeditPlace(l) && LinkeditPlace(l) + 72 <= l.HeaderEnd() && 1 <= l.ncmds < LIMIT32 && size <= l.sizeofcmds < LIMIT32
  {
    hide ParseSlice, U32, SizeAt, Chained;
    DescribedPlaces(s, l);
    DescribedChained(s, l);
    ChainedSizes(l.facts, l.HeaderEnd());
  }

  lemma {:induction false} ChainedSizes(f: Facts, end: nat)
    requires Chained(f, end) && f.codesig.Some? && f.linkedit.Some?
    ensures var at, size := f.codesig.value.at, SizeAt(f.commands, f.codesig.value.at);
      && f.commands != [] && HEADER <= at && at + size <= end && 8 <= size
      && HEADER <= f.linkedit.value.at && f.linkedit.value.at + 72 <= end
      && (f.linkedit.value.at > at ==> at + size <= f.linkedit.value.at)
  {
    hide SizeAt;
    var cs, sig, seg := f.commands, f.codesig.value.at, f.linkedit.value.at;
    var i :| 0 <= i < |cs| && cs[i].at == sig && cs[i].size >= 16;
    var j :| 0 <= j < |cs| && cs[j].at == seg && cs[j].size >= 72;
    SizeAtIs(cs, i, end);
  }

  /** Later commands move up over a command, and zeros take the freed place. */
  function Removed(out: Buffer, at: nat, size: nat, end: nat): (r: Buffer)
    requires at + size <= end <= |out|
    ensures |r| == |out|
  {
    out[..at] + out[at + size..end] + Zeros(size) + out[end..]
  }

  /** The same in place: bytes move up one by one, then the freed place is filled. */
  method MoveUp(out: array<Byte>, at: nat, size: nat, end: nat)
    requires at + size <= end <= out.Length
    modifies out
    ensures out[..] == Removed(old(out[..]), at, size, end)
  {
    for k := at to end - size
      invariant forall j :: 0 <= j < out.Length ==> out[j] == if at <= j < k then old(out[j + size]) else old(out[j])
    {
      out[k] := out[k + size];
    }
    for k := end - size to end
      invariant forall j :: 0 <= j < out.Length ==>
        out[j] == if at <= j < end - size then old(out[j + size]) else if end - size <= j < k then 0 else old(out[j])
    {
      out[k] := 0;
    }
    MovedUp(old(out[..]), out[..], at, size, end);
  }

  lemma {:induction false} MovedUp(before: Buffer, after: Buffer, at: nat, size: nat, end: nat)
    requires at + size <= end <= |before| == |after|
    requires forall j :: at <= j < end - size ==> after[j] == before[j + size]
    requires forall j :: end - size <= j < end ==> after[j] == 0
    requires forall j :: 0 <= j < at || end <= j < |before| ==> after[j] == before[j]
    ensures after == Removed(before, at, size, end)
  {
    assert after[..at] == before[..at];
    assert after[at..end - size] == before[at + size..end];
    assert after[end - size..end] == Zeros(size);
    assert after[end..] == before[end..];
    assert after == after[..at] + after[at..end - size] + after[end - size..end] + after[end..];
  }

  /** The link-edit segment ended at the cut; its size in memory only grows when it has to. */
  function EndedAt(out: Buffer, at: nat, filesize: nat, vmsize: nat, page: nat): (r: Buffer)
    requires at + 72 <= |out| && filesize <= LARGEST && 0 < page <= 16384
    ensures |r| == |out|
  {
    AlignedUp(filesize, page);
    var sized := Put(out, at + 48, LE64(filesize));
    if vmsize < filesize then Put(sized, at + 32, LE64(AlignUp(filesize, page))) else sized
  }

  function StripProgram(s: Buffer, l: Layout, cpu: Cpu): (r: Buffer)
    requires Describes(s, l) && Strippable(l) && |s| <= LARGEST
    ensures |r| == KeptEnd(l).value
  {
    StripPlaces(s, l);
    var cut, at, size := KeptEnd(l).value, l.facts.codesig.value.at, SizeAt(l.facts.commands, l.facts.codesig.value.at);
    var out := Put(Removed(s[..cut], at, size, l.HeaderEnd()), 16, Counts(l.ncmds - 1, l.sizeofcmds - size));
    EndedAt(out, LinkeditPlace(l), cut - l.facts.linkedit.value.fileoff, l.facts.linkedit.value.vmsize, MemoryPage(cpu))
  }

  /** The same in place. */
  method StripInPlace(s: Buffer, l: Layout, cpu: Cpu) returns (out: array<Byte>)
    requires Describes(s, l) && Strippable(l) && |s| <= LARGEST
    ensures fresh(out) && out[..] == StripProgram(s, l, cpu)
  {
    hide ParseSlice, Put, LE64, Removed, Counts, SizeAt, AlignUp, U32, KeptEnd, LinkeditPlace;
    StripPlaces(s, l);
    var cut, at := KeptEnd(l).value, l.facts.codesig.value.at;
    var size := FindSize(l.facts.commands, at);
    out := new Byte[cut](i requires 0 <= i < cut => s[i]);
    assert out[..] == s[..cut];
    MoveUp(out, at, size, l.HeaderEnd());
    PutBytes(out, 16, Counts(l.ncmds - 1, l.sizeofcmds - size));
    var place, filesize, page := LinkeditPlace(l), cut - l.facts.linkedit.value.fileoff, MemoryPage(cpu);
    AlignedUp(filesize, page);
    PutBytes(out, place + 48, LE64(filesize));
    if l.facts.linkedit.value.vmsize < filesize { PutBytes(out, place + 32, LE64(AlignUp(filesize, page))); }
  }

  /** A program without its signature, or a refusal; one without a signature stays as it is. What no buffer holds is
      refused. */
  function StripSlice(s: Buffer, cpu: Cpu): Option<Buffer> {
    var l :- ParseSlice(s);
    if l.kind != Thin64Little || |s| > LARGEST then None
    else if l.facts.codesig.None? then Some(s)
    else if !Strippable(l) then None
    else Some(StripProgram(s, l, cpu))
  }

  // ── After signing ──────────────────────────────────────────

  /** The original but for the sixteen bytes after its commands, the two sizes of the link-edit segment, and zeros
      up to the next multiple of sixteen. */
  function Restored(s: Buffer, at: nat, end: nat, dataoff: nat, filesize: nat, vmsize: nat): (r: Buffer)
    requires at + 72 <= end && end + 16 <= |s| <= dataoff && filesize < LIMIT64 && vmsize < LIMIT64
    ensures |r| == dataoff
  {
    Resized(Put(s + Zeros(dataoff - |s|), end, Zeros(16)), at, filesize, vmsize)
  }

  ghost function RestoredFrom(s: Buffer, l: Layout, dataoff: nat, datasize: nat, cpu: Cpu): Buffer
    requires Room(s, l, dataoff, datasize, cpu)
  {
    Restored(s, l.facts.linkedit.value.at, l.HeaderEnd(), dataoff, LinkSize(l, dataoff), LinkMemory(l, dataoff + datasize, cpu))
  }

  lemma {:induction false} EncodedField(s: Buffer, at: nat)
    requires at + 4 <= |s|
    ensures LE32(U32(s, at)) == s[at..at + 4]
  {
    var a: int, b: int, c: int, d: int := s[at], s[at + 1], s[at + 2], s[at + 3];
    DigitsOfWord(a, b, c, d);
    assert s[at..at + 4] == [s[at], s[at + 1], s[at + 2], s[at + 3]];
  }

  lemma {:induction false} DigitsOfWord(a: int, b: int, c: int, d: int)
    requires 0 <= a < 256 && 0 <= b < 256 && 0 <= c < 256 && 0 <= d < 256
    ensures var v := Word(a, b, c, d); v % 256 == a && v / 256 % 256 == b && v / 256 / 256 % 256 == c && v / 256 / 256 / 256 == d
  {
    var v := Word(a, b, c, d);
    assert v == a + 256 * (b + 256 * (c + 256 * d));
    assert v / 256 == b + 256 * (c + 256 * d);
    assert v / 256 / 256 == c + 256 * d;
  }

  lemma {:induction false} CountsOf(s: Buffer)
    requires |s| >= 24
    ensures Counts(U32(s, 16), U32(s, 20)) == s[16..24]
  {
    hide LE32, U32;
    EncodedField(s, 16);
    EncodedField(s, 20);
    assert s[16..24] == s[16..20] + s[20..24];
  }

  /** A new file size over a pair of sizes. */
  lemma {:induction false} FilesizeAgain(s: Buffer, at: nat, filesize: nat, vmsize: nat, filesize': nat)
    requires at + 72 <= |s| && filesize < LIMIT64 && vmsize < LIMIT64 && filesize' < LIMIT64
    ensures Put(Resized(s, at, filesize, vmsize), at + 48, LE64(filesize')) == Resized(s, at, filesize', vmsize)
  {
    hide Put, LE64;
    var x := Put(s, at + 48, LE64(filesize));
    PutSwap(x, at + 32, LE64(vmsize), at + 48, LE64(filesize'));
    PutOver(s, at + 48, LE64(filesize), LE64(filesize'));
  }

  lemma {:induction false} RemovedLast(t: Buffer, end: nat, dataoff: nat)
    requires end + 16 <= dataoff <= |t|
    ensures var r := Removed(t[..dataoff], end, 16, end + 16);
      r[..end] == t[..end] && r[end..end + 16] == Zeros(16) && r[end + 16..dataoff] == t[end + 16..dataoff]
  {
    var r := Removed(t[..dataoff], end, 16, end + 16);
    assert t[..dataoff][end + 16..end + 16] == [];
    assert r == t[..end] + Zeros(16) + t[end + 16..dataoff];
  }

  /** The signature command taken out of a program that was just signed. */
  lemma {:induction false} RemovedRegions(t: Buffer, s: Buffer, l: Layout, dataoff: nat, datasize: nat, cpu: Cpu)
    requires Room(s, l, dataoff, datasize, cpu) && Regions(t, s, l, dataoff, datasize, cpu) && U32(s, 16) == l.ncmds && U32(s, 20) == l.sizeofcmds
    ensures var end, total := l.HeaderEnd(), dataoff + datasize;
      var r := Put(Removed(t[..dataoff], end, 16, end + 16), 16, Counts(l.ncmds, l.sizeofcmds));
      && r[..HEADER] == s[..HEADER] && r[HEADER..end] == t[HEADER..end]
      && r[end..end + 16] == Zeros(16) && r[end + 16..] == s[end + 16..] + Zeros(dataoff - |s|)
  {
    hide Put, Counts, Resized, SignatureCommand, Zeros, LinkMemory, U32, Removed;
    var end := l.HeaderEnd();
    var base, counts := Removed(t[..dataoff], end, 16, end + 16), Counts(l.ncmds, l.sizeofcmds);
    var r := Put(base, 16, counts);
    CountsOf(s);
    PutApart(base, 16, counts, 0, 16);
    PutApart(base, 16, counts, 24, 32);
    PutApart(base, 16, counts, HEADER, end);
    PutApart(base, 16, counts, end, end + 16);
    PutApart(base, 16, counts, end + 16, dataoff);
    RemovedLast(t, end, dataoff);
    SameSlice(base, t, end, 0, 16);
    SameSlice(base, t, end, 24, 32);
    SameSlice(base, t, end, HEADER, end);
    assert r[..HEADER] == r[..16] + r[16..24] + r[24..32] && s[..HEADER] == s[..16] + s[16..24] + s[24..32];
  }

  lemma {:induction false} RestoredRegions(s: Buffer, at: nat, end: nat, dataoff: nat, filesize: nat, vmsize: nat)
    requires HEADER <= at && at + 72 <= end && end + 16 <= |s| <= dataoff && filesize < LIMIT64 && vmsize < LIMIT64
    ensures var r := Restored(s, at, end, dataoff, filesize, vmsize);
      && r[..HEADER] == s[..HEADER] && r[HEADER..end] == Resized(s[HEADER..end], at - HEADER, filesize, vmsize)
      && r[end..end + 16] == Zeros(16) && r[end + 16..] == s[end + 16..] + Zeros(dataoff - |s|)
  {
    hide Put, Resized;
    var base := s + Zeros(dataoff - |s|);
    var m := Put(base, end, Zeros(16));
    ResizedApart(m, at, filesize, vmsize, 0, HEADER);
    ResizedInside(m, at, filesize, vmsize, HEADER, end);
    ResizedApart(m, at, filesize, vmsize, end, end + 16);
    ResizedApart(m, at, filesize, vmsize, end + 16, dataoff);
    PutApart(base, end, Zeros(16), 0, HEADER);
    PutApart(base, end, Zeros(16), HEADER, end);
    PutApart(base, end, Zeros(16), end + 16, dataoff);
    assert base[0..HEADER] == s[..HEADER] && base[HEADER..end] == s[HEADER..end];
    assert base[end + 16..dataoff] == s[end + 16..] + Zeros(dataoff - |s|);
  }

  lemma {:induction false} FourParts(r: Buffer, end: nat)
    requires HEADER <= end && end + 16 <= |r|
    ensures r == r[..HEADER] + r[HEADER..end] + r[end..end + 16] + r[end + 16..]
  {
  }

  /** The file size written into a program whose other regions are known. */
  lemma {:induction false} EndedRegions(r: Buffer, at: nat, end: nat, filesize: nat)
    requires HEADER <= at && at + 72 <= end && end + 16 <= |r| && filesize < LIMIT64
    ensures var q := Put(r, at + 48, LE64(filesize));
      && q[..HEADER] == r[..HEADER] && q[HEADER..end] == Put(r[HEADER..end], at - HEADER + 48, LE64(filesize))
      && q[end..end + 16] == r[end..end + 16] && q[end + 16..] == r[end + 16..]
  {
    hide Put, LE64;
    PutApart(r, at + 48, LE64(filesize), 0, HEADER);
    PutInside(r, at + 48, LE64(filesize), HEADER, end);
    PutApart(r, at + 48, LE64(filesize), end, end + 16);
    PutApart(r, at + 48, LE64(filesize), end + 16, |r|);
  }

  lemma {:induction false} AgainStrippable(t: Buffer, s: Buffer, l: Layout, m: Layout, p: Plan, cms: Buffer, cpu: Cpu)
    requires SignedOnce(t, s, l, m, p, cms, cpu)
    ensures Strippable(m) && KeptEnd(m) == Some(p.dataoff) && |t| <= LARGEST
  {
    hide ParseSlice, Regions, BuildSuperBlob, Align16, LinkMemory;
    AgainRewritable(t, s, l, m, p, cms, cpu);
  }

  lemma {:induction false} StripIs(t: Buffer, s: Buffer, l: Layout, m: Layout, p: Plan, cms: Buffer, cpu: Cpu)
    requires SignedOnce(t, s, l, m, p, cms, cpu) && Strippable(m) && KeptEnd(m) == Some(p.dataoff) && |t| <= LARGEST
    ensures var end := l.HeaderEnd();
      StripProgram(t, m, cpu) == Put(Put(Removed(t[..p.dataoff], end, 16, end + 16), 16, Counts(l.ncmds, l.sizeofcmds)),
                                l.facts.linkedit.value.at + 48, LE64(LinkSize(l, p.dataoff)))
  {
    hide ParseSlice, Regions, BuildSuperBlob, Put, Removed, Counts, LE64, AlignUp, Align16, SizeAt;
    StripPlaces(t, m);
    LastSize(l.facts.commands, Command(l.HeaderEnd(), LC_CODE_SIGNATURE, SIGNATURE_COMMAND));
  }

  lemma {:induction false} LastSize(cs: seq<Command>, c: Command)
    ensures SizeAt(cs + [c], c.at) == c.size
  {
  }

  /** Stripping a program that was just signed restores it, but for what Restored says. */
  lemma {:induction false} StripRestored(t: Buffer, s: Buffer, l: Layout, m: Layout, p: Plan, cms: Buffer, cpu: Cpu)
    requires SignedOnce(t, s, l, m, p, cms, cpu) && U32(s, 16) == l.ncmds && U32(s, 20) == l.sizeofcmds
    requires Strippable(m) && KeptEnd(m) == Some(p.dataoff) && |t| <= LARGEST
    ensures StripProgram(t, m, cpu) == RestoredFrom(s, l, p.dataoff, p.datasize, cpu)
  {
    hide ParseSlice, BuildSuperBlob, Put, Removed, Counts, LE64, Align16, Resized, Restored, StripProgram, Zeros, LinkMemory, SignatureCommand, U32;
    StripIs(t, s, l, m, p, cms, cpu);
    RemovedRegions(t, s, l, p.dataoff, p.datasize, cpu);
    var end, at, filesize := l.HeaderEnd(), l.facts.linkedit.value.at, LinkSize(l, p.dataoff);
    var r := Put(Removed(t[..p.dataoff], end, 16, end + 16), 16, Counts(l.ncmds, l.sizeofcmds));
    EndedRegions(r, at, end, filesize);
    FilesizeAgain(s[HEADER..end], at - HEADER, LinkSize(l, |t|), LinkMemory(l, |t|, cpu), filesize);
    RestoredRegions(s, at, end, p.dataoff, filesize, LinkMemory(l, |t|, cpu));
    FourParts(StripProgram(t, m, cpu), end);
    FourParts(RestoredFrom(s, l, p.dataoff, p.datasize, cpu), end);
  }

  // ── The theorems ───────────────────────────────────────────

  /** The commands of the stripped program are the original's, relinked. */
  lemma {:induction false} RestoredApart(s: Buffer, l: Layout, cs: seq<Buffer>, k: nat, dataoff: nat, datasize: nat, cpu: Cpu)
    requires Signable(s, l, cs, k) && Room(s, l, dataoff, datasize, cpu)
    ensures var r := RestoredFrom(s, l, dataoff, datasize, cpu);
      Apart(r, RelinkAt(cs, k, LinkSize(l, dataoff), LinkMemory(l, dataoff + datasize, cpu)))
      && U32(r, 4) == U32(s, 4) && U32(r, 8) == U32(s, 8) && U32(r, 12) == U32(s, 12)
  {
    hide ParseSlice, Resized, Restored, Counts, U32, Relink, WellSized, AllWellSized, Add, Fold, Classify, LinkMemory, Zeros;
    var r, end, at := RestoredFrom(s, l, dataoff, datasize, cpu), l.HeaderEnd(), l.facts.linkedit.value.at;
    var filesize, vmsize := LinkSize(l, dataoff), LinkMemory(l, dataoff + datasize, cpu);
    RestoredRegions(s, at, end, dataoff, filesize, vmsize);
    RelinkedWhole(cs, k, filesize, vmsize);
    ResizedJoin(cs, k, filesize, vmsize);
    CountsOf(s);
    SameSlice(r, s, HEADER, 0, 16);
    SameSlice(r, s, HEADER, 16, 24);
    KindIs(s, l);
    ComesApart(s, r, RelinkAt(cs, k, filesize, vmsize));
  }

  /** The layout of a stripped program is the original's, but for its size and the sizes of the link-edit segment. */
  ghost predicate StrippedLayout(l: Layout, m: Layout, dataoff: nat, vmsize: nat) {
    && m.kind == Thin64Little && m.size == dataoff && m.cputype == l.cputype && m.cpusubtype == l.cpusubtype && m.filetype == l.filetype
    && m.ncmds == l.ncmds && m.sizeofcmds == l.sizeofcmds && l.facts.linkedit.Some? && 0 <= LinkSize(l, dataoff)
    && Alike(l.facts, m.facts, LinkSize(l, dataoff), vmsize)
  }

  lemma {:induction false} RestoredParses(s: Buffer, l: Layout, cs: seq<Buffer>, k: nat, dataoff: nat, datasize: nat, cpu: Cpu)
    requires Signable(s, l, cs, k) && Room(s, l, dataoff, datasize, cpu)
    ensures var r := RestoredFrom(s, l, dataoff, datasize, cpu);
      ParseSlice(r).Some? && StrippedLayout(l, ParseSlice(r).value, dataoff, LinkMemory(l, dataoff + datasize, cpu))
  {
    hide ParseSlice, Apart, Restored, LinkMemory, Relink, Add, Fold, U32, Classify;
    var r := RestoredFrom(s, l, dataoff, datasize, cpu);
    var filesize, vmsize := LinkSize(l, dataoff), LinkMemory(l, dataoff + datasize, cpu);
    var ds := RelinkAt(cs, k, filesize, vmsize);
    RestoredApart(s, l, cs, k, dataoff, datasize, cpu);
    RelinkedWhole(cs, k, filesize, vmsize);
    RelinkedFacts(cs, k, |s|, l.facts, dataoff, PlaceOf(ds), filesize, vmsize);
    ApartParses(r, ds);
    FieldsOf(s, l);
  }

  /** The program t strips to what Restored says of s, and that is accepted as s was. */
  ghost predicate StripsBack(t: Buffer, s: Buffer, l: Layout, cpu: Cpu) {
    var dataoff := Align16(|s|);
    && |t| <= LARGEST && dataoff <= |t| && Room(s, l, dataoff, |t| - dataoff, cpu)
    && StripSlice(t, cpu) == Some(RestoredFrom(s, l, dataoff, |t| - dataoff, cpu))
    && var again := ParseSlice(RestoredFrom(s, l, dataoff, |t| - dataoff, cpu));
       again.Some? && StrippedLayout(l, again.value, dataoff, LinkMemory(l, |t|, cpu))
  }

  /** Signing and then stripping an unsigned program gives the original outside the sixteen bytes after its commands,
      the link-edit segment's two sizes and at most fifteen zeros at its end; it is accepted, unsigned, with the
      commands, the text segment and the libraries it had. */
  lemma {:induction false} StripSigned(s: Buffer, l: Layout, identity: Buffer, capacity: nat, cms: Buffer, hash: Hash, cpu: Cpu)
    requires Describes(s, l) && l.facts.codesig.None? && Sign(s, identity, capacity, cms, hash, cpu).Some?
    ensures Align16(|s|) < |s| + 16 && StripsBack(Sign(s, identity, capacity, cms, hash, cpu).value, s, l, cpu)
  {
    hide ParseSlice, PlanOf, Unsigned, Apart, Sign, BuildSuperBlob, Regions, Reservable, Align16, StripProgram, Restored, LinkMemory, Strippable;
    SignIs(s, l, identity, capacity, cms, hash, cpu);
    var cs, k := TakeApart(s, l);
    SignedBytes(s, l, cs, k, identity, capacity, cms, hash, cpu);
    var t, p := Sign(s, identity, capacity, cms, hash, cpu).value, PlanOf(s, l, identity, capacity, hash, cpu);
    JustSignedParses(t, s, l, cs, k, p, cms, cpu);
    AlignedUp(|s|, 16);
    assert Align16(|s|) < |s| + 16 by { Aligned16(|s|); }
    var m := ParseSlice(t).value;
    AgainStrippable(t, s, l, m, p, cms, cpu);
    DescribedPlaces(s, l);
    StripRestored(t, s, l, m, p, cms, cpu);
    RestoredParses(s, l, cs, k, p.dataoff, p.datasize, cpu);
  }

  lemma {:induction false} Aligned16(value: nat)
    ensures value <= Align16(value) < value + 16 && (Align16(value) == value <==> value % 16 == 0)
  {
    AlignedUp(value, 16);
  }

  // ── When the original comes back exactly ───────────────────

  lemma {:induction false} EncodedWide(s: Buffer, at: nat)
    requires at + 8 <= |s|
    ensures LE64(U64(s, at)) == s[at..at + 8]
  {
    hide LE32, U32;
    var a, b := U32(s, at), U32(s, at + 4);
    var v := a + LIMIT32 * b;
    assert v / LIMIT32 == b && v % LIMIT32 == a;
    EncodedField(s, at);
    EncodedField(s, at + 4);
    assert s[at..at + 8] == s[at..at + 4] + s[at + 4..at + 8];
  }

  lemma {:induction false} PutSame(s: Buffer, at: nat, n: nat)
    requires at + n <= |s|
    ensures Put(s, at, s[at..at + n]) == s
  {
  }

  /** Writing the sizes a segment has changes nothing; writing others does. */
  lemma {:induction false} ResizedSame(s: Buffer, at: nat, filesize: nat, vmsize: nat)
    requires at + 72 <= |s| && filesize < LIMIT64 && vmsize < LIMIT64
    ensures Resized(s, at, filesize, vmsize) == s <==> U64(s, at + 48) == filesize && U64(s, at + 32) == vmsize
  {
    hide LE64, U64, Put;
    var x := Put(s, at + 48, LE64(filesize));
    var r := Resized(s, at, filesize, vmsize);
    PutApart(x, at + 32, LE64(vmsize), at + 48, at + 56);
    Read64(r, at + 48, filesize);
    Read64(r, at + 32, vmsize);
    if U64(s, at + 48) == filesize && U64(s, at + 32) == vmsize {
      EncodedWide(s, at + 48);
      PutSame(s, at + 48, 8);
      EncodedWide(s, at + 32);
      PutSame(s, at + 32, 8);
    }
  }

  lemma {:induction false} RestoredSame(s: Buffer, at: nat, end: nat, dataoff: nat, filesize: nat, vmsize: nat)
    requires HEADER <= at && at + 72 <= end && end + 16 <= |s| <= dataoff && filesize < LIMIT64 && vmsize < LIMIT64
    ensures Restored(s, at, end, dataoff, filesize, vmsize) == s <==>
      dataoff == |s| && s[end..end + 16] == Zeros(16) && U64(s, at + 48) == filesize && U64(s, at + 32) == vmsize
  {
    hide Put, Resized, U64;
    var r := Restored(s, at, end, dataoff, filesize, vmsize);
    RestoredRegions(s, at, end, dataoff, filesize, vmsize);
    if dataoff == |s| {
      assert s + Zeros(0) == s;
      if s[end..end + 16] == Zeros(16) {
        PutSame(s, end, 16);
        ResizedSame(s, at, filesize, vmsize);
      }
    }
  }

  lemma {:induction false} RestoredFromSame(s: Buffer, l: Layout, dataoff: nat, datasize: nat, cpu: Cpu)
    requires Describes(s, l) && Rewritable(l) && l.facts.codesig.None? && Room(s, l, dataoff, datasize, cpu)
    ensures RestoredFrom(s, l, dataoff, datasize, cpu) == s <==>
      dataoff == |s| && s[l.HeaderEnd()..l.HeaderEnd() + 16] == Zeros(16) && l.facts.linkedit.value.vmsize == LinkMemory(l, dataoff + datasize, cpu)
  {
    hide ParseSlice, Restored, LinkMemory, U64, Zeros, Rewritable;
    RestoredSame(s, l.facts.linkedit.value.at, l.HeaderEnd(), dataoff, LinkSize(l, dataoff), LinkMemory(l, dataoff + datasize, cpu));
    LinkeditFields(s, l);
  }

  /** Stripping gives the original back byte for byte exactly when its length is a multiple of sixteen, the bytes
      after its commands are zero and its link-edit segment already had the size in memory that signing gave it. */
  lemma {:induction false} StripExact(s: Buffer, l: Layout, identity: Buffer, capacity: nat, cms: Buffer, hash: Hash, cpu: Cpu)
    requires Describes(s, l) && l.facts.codesig.None? && Sign(s, identity, capacity, cms, hash, cpu).Some?
    ensures l.facts.linkedit.Some? && l.HeaderEnd() + 16 <= |s| && |Sign(s, identity, capacity, cms, hash, cpu).value| <= LARGEST
    ensures var t := Sign(s, identity, capacity, cms, hash, cpu).value;
      && 0 <= LinkSize(l, |t|)
      && (StripSlice(t, cpu) == Some(s) <==>
            |s| % 16 == 0 && s[l.HeaderEnd()..l.HeaderEnd() + 16] == Zeros(16) && l.facts.linkedit.value.vmsize == LinkMemory(l, |t|, cpu))
  {
    hide ParseSlice, Sign, Align16, RestoredFrom, LinkMemory, StripSlice, Zeros, Reservable, PlanOf, BuildSuperBlob;
    StripSigned(s, l, identity, capacity, cms, hash, cpu);
    SignIs(s, l, identity, capacity, cms, hash, cpu);
    var t := Sign(s, identity, capacity, cms, hash, cpu).value;
    Aligned16(|s|);
    RestoredFromSame(s, l, Align16(|s|), |t| - Align16(|s|), cpu);
  }

  lemma {:induction false} LinkeditFields(s: Buffer, l: Layout)
    requires Describes(s, l) && Rewritable(l) && l.facts.codesig.None?
    ensures var seg := l.facts.linkedit.value;
      && seg.at + 72 <= |s| && U64(s, seg.at + 32) == seg.vmsize && U64(s, seg.at + 48) == seg.filesize
      && seg.fileoff + seg.filesize == |s|
  {
    hide ParseSlice, Add, Fold, WellSized, AllWellSized, Classify, U32, U64, NameOf;
    var cs, k := TakeApart(s, l);
    LinkeditCommand(cs, k, |s|, PlaceOf(cs));
    JoinSlice(cs, k);
    HoldsWithin(s, HEADER, Join(cs), |Join(cs[..k])|, cs[k]);
    WideInside(s, PlaceOf(cs[..k]), cs[k], 32);
    WideInside(s, PlaceOf(cs[..k]), cs[k], 48);
  }

  lemma {:induction false} WideInside(s: Buffer, at: nat, c: Buffer, k: nat)
    requires HoldsAt(s, at, c) && k + 8 <= |c|
    ensures U64(s, at + k) == U64(c, k)
  {
    hide U32;
    FieldInside(s, at, c, k);
    FieldInside(s, at, c, k + 4);
  }
}
