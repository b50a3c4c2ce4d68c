/** Planning a signature: its place, the header fields that announce it, the resulting bytes and the code directory. */
module MachOPlan {
  import opened Bytes
  import opened MachOLayout
  import opened MachORewrite
  import opened MachOSuperBlob

  const SIGNATURE_COMMAND: nat := 16
  const CODE_PAGE: nat := 4096
  const MAX_CAPACITY: nat := 0x8000_0000
  const ARM64: nat := 0x0100_000C

  // ── Where the parts of a parsed program are ────────────────

  /** Commands and segments lie where the parse found them. */
  ghost predicate Places(f: Facts, end: nat, size: nat, headerEnd: nat) {
    && f.firstContent <= size
    && (f.text.Some? ==> f.text.value.fileoff < LIMIT64 && f.text.value.filesize < LIMIT64)
    && (forall c :: c in f.commands ==> HEADER <= c.at && c.at + c.size <= end)
    && (f.linkedit.Some? ==> HEADER <= f.linkedit.value.at && f.linkedit.value.at + 72 <= end)
    && (f.linkedit.Some? && !f.problem ==> f.linkedit.value.fileoff + f.linkedit.value.filesize <= size)
    && (f.codesig.Some? ==>
          && HEADER <= f.codesig.value.at && f.codesig.value.at + 16 <= end
          && f.codesig.value.dataoff + f.codesig.value.datasize <= size
          && (f.codesig.value.datasize != 0 ==> headerEnd <= f.codesig.value.dataoff))
  }

  lemma {:induction false} SectionsLower(c: Buffer, n: nat, first: nat)
    requires 72 + n * 80 <= |c|
    ensures SectionsFrom(c, n, first) <= first
  {
    hide U32;
    if n > 0 { SectionsLower(c, n - 1, first); }
  }

  lemma {:induction false} AddPlaces(f: Facts, c: Buffer, at: nat, size: nat, headerEnd: nat)
    requires Places(f, at, size, headerEnd) && HEADER <= at && Add(f, c, at, size, headerEnd).Some?
    ensures Places(Add(f, c, at, size, headerEnd).value, at + |c|, size, headerEnd)
  {
    hide U32, U64, SectionsFrom, ByteSpan.StringAt, NameOf;
    if |c| >= 72 && 72 + U32(c, 64) * 80 <= |c| { SectionsLower(c, U32(c, 64), SegmentFirst(SegmentOf(c, at), f.firstContent)); }
  }

  lemma {:induction false} KnownPlaces(cs: seq<Buffer>, i: nat, size: nat, headerEnd: nat)
    requires i <= |cs| && Known(cs[..i], size, headerEnd).Some?
    ensures Places(Known(cs[..i], size, headerEnd).value, PlaceOf(cs[..i]), size, headerEnd)
  {
    hide Add;
    if i > 0 {
      KnownStep(cs, i - 1, size, headerEnd);
      KnownPlaces(cs, i - 1, size, headerEnd);
      AddPlaces(Known(cs[..i - 1], size, headerEnd).value, cs[i - 1], PlaceOf(cs[..i - 1]), size, headerEnd);
      JoinStep(cs, i - 1);
    }
  }

  /** The layout is that of the program, which is one the signer can work on. */
  predicate Describes(s: Buffer, l: Layout) {
    ParseSlice(s) == Some(l) && l.kind == Thin64Little
  }

  lemma {:induction false} KindIs(s: Buffer, l: Layout)
    requires Describes(s, l)
    ensures Classify(s) == Thin64Little
  {
    hide ParseProgram;
  }

  lemma {:induction false} DescribedPlaces(s: Buffer, l: Layout)
    requires Describes(s, l)
    ensures l.size == |s| && l.HeaderEnd() <= |s| && !l.facts.problem
    ensures l.ncmds == U32(s, 16) && l.sizeofcmds == U32(s, 20)
    ensures Places(l.facts, l.HeaderEnd(), |s|, l.HeaderEnd())
  {
    hide ParseSlice, Add;
    KindIs(s, l);
    var cs := ParsedApart(s);
    assert cs[..|cs|] == cs;
    KnownPlaces(cs, |cs|, |s|, l.HeaderEnd());
  }

  // ── Sizes ──────────────────────────────────────────────────

  function AlignUp(value: nat, unit: nat): nat
    requires unit > 0
  {
    (value + unit - 1) / unit * unit
  }

  lemma {:induction false} AlignedUp(value: nat, unit: nat)
    requires unit > 0
    ensures value <= AlignUp(value, unit) < value + unit && AlignUp(value, unit) % unit == 0
    ensures value % unit == 0 ==> AlignUp(value, unit) == value
  {
    var q := (value + unit - 1) / unit;
    assert value + unit - 1 == q * unit + (value + unit - 1) % unit;
    MultipleMod(q, unit);
    if value % unit == 0 {
      var p := value / unit;
      assert value == p * unit;
      ProductBound(p, q, unit);
      ProductBound(q, p, unit);
    }
  }

  lemma {:induction false} MultipleMod(q: nat, unit: nat)
    requires unit > 0
    ensures q * unit % unit == 0
  {
    var p, r := q * unit / unit, q * unit % unit;
    assert q * unit == p * unit + r;
    ProductBound(p, q, unit);
    ProductBound(q, p, unit);
  }

  function Align16(value: nat): nat {
    AlignUp(value, 16)
  }

  function CodeSlots(dataoff: nat): nat {
    (dataoff + CODE_PAGE - 1) / CODE_PAGE
  }

  /** Where the hashes start: after the fixed part and the identity with its NUL. */
  function HashOffset(identity: Buffer): nat {
    88 + |identity| + 1
  }

  function DirectorySize(identity: Buffer, dataoff: nat): nat {
    HashOffset(identity) + (2 + CodeSlots(dataoff)) * 32
  }

  function RegionSize(identity: Buffer, dataoff: nat, capacity: nat): nat {
    Align16(FIXED_SIZE + DirectorySize(identity, dataoff) + capacity)
  }

  function MemoryPage(cpu: Cpu): nat {
    if cpu.cputype == ARM64 then 16384 else 4096
  }

  // ── What can be signed ─────────────────────────────────────

  /** How much of the program is kept; nothing if bytes follow the old signature. */
  function KeptEnd(l: Layout): Option<nat> {
    match l.facts.codesig
    case None => Some(l.size)
    case Some(sig) =>
      if sig.dataoff == 0 && sig.datasize == 0 then Some(l.size)
      else if sig.dataoff + sig.datasize != l.size then None
      else Some(sig.dataoff)
  }

  /** The link-edit segment reaches from before the cut to the end, and a new command has room. */
  predicate Rewritable(l: Layout) {
    && KeptEnd(l).Some? && l.facts.linkedit.Some?
    && l.facts.linkedit.value.fileoff <= KeptEnd(l).value
    && l.facts.linkedit.value.fileoff + l.facts.linkedit.value.filesize == l.size
    && (l.facts.codesig.None? ==> l.FreeHeaderSpace() >= SIGNATURE_COMMAND && l.ncmds != 0xFFFF_FFFF)
  }

  /** The identity can be stored and the signature described in 32 bits. */
  predicate Reservable(identity: Buffer, dataoff: nat, capacity: nat) {
    && 0 !in identity && capacity <= MAX_CAPACITY
    && dataoff + RegionSize(identity, dataoff, capacity) < LIMIT32
    && DirectorySize(identity, dataoff) < LIMIT32
  }

  lemma {:induction false} KeptPlaces(s: Buffer, l: Layout)
    requires Describes(s, l) && Rewritable(l)
    ensures var kept := KeptEnd(l).value;
      && l.HeaderEnd() <= kept <= |s|
      && (l.facts.codesig.None? ==> kept == |s| && l.HeaderEnd() + SIGNATURE_COMMAND <= kept)
  {
    hide Describes;
    DescribedPlaces(s, l);
  }

  // ── The bytes ──────────────────────────────────────────────

  function SignatureCommand(dataoff: nat, datasize: nat): (c: Buffer)
    requires dataoff < LIMIT32 && datasize < LIMIT32
    ensures |c| == 16
  {
    LE32(LC_CODE_SIGNATURE) + LE32(SIGNATURE_COMMAND) + (LE32(dataoff) + LE32(datasize))
  }

  /** The sizes of the link-edit segment of a program that ends at `end`. */
  function LinkSize(l: Layout, end: nat): int
    requires l.facts.linkedit.Some?
  {
    end - l.facts.linkedit.value.fileoff
  }

  function LinkMemory(l: Layout, end: nat, cpu: Cpu): nat
    requires l.facts.linkedit.Some? && LinkSize(l, end) >= 0
  {
    AlignUp(LinkSize(l, end), MemoryPage(cpu))
  }

  lemma {:induction false} LinkSizesFit(l: Layout, end: nat, cpu: Cpu)
    requires l.facts.linkedit.Some? && LinkSize(l, end) >= 0 && end < LIMIT32
    ensures LinkSize(l, end) < LIMIT64 && LinkSize(l, end) <= LinkMemory(l, end, cpu) < LIMIT64
  {
    AlignedUp(LinkSize(l, end), MemoryPage(cpu));
  }

  /** The signature command of an unsigned program after the last one, with the counts that cover it; the place
      and size of the data in the command of a signed one. */
  function Described(s: Buffer, l: Layout, dataoff: nat, datasize: nat): (r: Buffer)
    requires dataoff < LIMIT32 && datasize < LIMIT32
    requires l.facts.codesig.None? ==> l.HeaderEnd() + 16 <= |s| && l.ncmds + 1 < LIMIT32 && l.HeaderEnd() < LIMIT32
    requires l.facts.codesig.Some? ==> l.facts.codesig.value.at + 16 <= |s|
    ensures |r| == |s|
  {
    match l.facts.codesig
    case None =>
      Put(Put(s, l.HeaderEnd(), SignatureCommand(dataoff, datasize)), 16, LE32(l.ncmds + 1) + LE32(l.sizeofcmds + SIGNATURE_COMMAND))
    case Some(sig) => Put(s, sig.at + 8, LE32(dataoff) + LE32(datasize))
  }

  /** The link-edit segment's sizes written into its command. */
  function Resized(s: Buffer, at: nat, filesize: nat, vmsize: nat): (r: Buffer)
    requires at + 72 <= |s| && filesize < LIMIT64 && vmsize < LIMIT64
    ensures |r| == |s|
  {
    Put(Put(s, at + 48, LE64(filesize)), at + 32, LE64(vmsize))
  }

  /** The bytes that stay, zeros up to the end of the region, and the fields that describe it. */
  function Rewrite(s: Buffer, l: Layout, dataoff: nat, datasize: nat, cpu: Cpu): (r: Buffer)
    requires Describes(s, l) && Rewritable(l) && KeptEnd(l).value <= dataoff && dataoff + datasize < LIMIT32
    ensures |r| == dataoff + datasize
  {
    KeptPlaces(s, l);
    DescribedPlaces(s, l);
    var end := dataoff + datasize;
    LinkSizesFit(l, end, cpu);
    var base := s[..KeptEnd(l).value] + Zeros(end - KeptEnd(l).value);
    Resized(Described(base, l, dataoff, datasize), l.facts.linkedit.value.at, LinkSize(l, end), LinkMemory(l, end, cpu))
  }

  method DescribeInPlace(out: array<Byte>, l: Layout, dataoff: nat, datasize: nat)
    requires dataoff < LIMIT32 && datasize < LIMIT32
    requires l.facts.codesig.None? ==> l.HeaderEnd() + 16 <= out.Length && l.ncmds + 1 < LIMIT32 && l.HeaderEnd() < LIMIT32
    requires l.facts.codesig.Some? ==> l.facts.codesig.value.at + 16 <= out.Length
    modifies out
    ensures out[..] == Described(old(out[..]), l, dataoff, datasize)
  {
    hide Put, LE32, SignatureCommand;
    match l.facts.codesig {
      case None =>
        PutBytes(out, l.HeaderEnd(), SignatureCommand(dataoff, datasize));
        PutBytes(out, 16, LE32(l.ncmds + 1) + LE32(l.sizeofcmds + SIGNATURE_COMMAND));
      case Some(sig) => PutBytes(out, sig.at + 8, LE32(dataoff) + LE32(datasize));
    }
  }

  method ResizeInPlace(out: array<Byte>, at: nat, filesize: nat, vmsize: nat)
    requires at + 72 <= out.Length && filesize < LIMIT64 && vmsize < LIMIT64
    modifies out
    ensures out[..] == Resized(old(out[..]), at, filesize, vmsize)
  {
    hide Put, LE64;
    PutBytes(out, at + 48, LE64(filesize));
    PutBytes(out, at + 32, LE64(vmsize));
  }

  lemma {:induction false} RewriteFits(s: Buffer, l: Layout, dataoff: nat, datasize: nat, cpu: Cpu)
    requires Describes(s, l) && Rewritable(l) && KeptEnd(l).value <= dataoff && dataoff + datasize < LIMIT32
    ensures var kept, end := KeptEnd(l).value, dataoff + datasize;
      && kept <= |s| && l.HeaderEnd() <= kept && (l.facts.codesig.None? ==> l.HeaderEnd() + 16 <= kept && l.ncmds + 1 < LIMIT32)
      && (l.facts.codesig.Some? ==> l.facts.codesig.value.at + 16 <= kept)
      && l.facts.linkedit.value.at + 72 <= kept && 0 <= LinkSize(l, end) < LIMIT64 && LinkMemory(l, end, cpu) < LIMIT64
  {
    hide ParseSlice, AlignUp, U32;
    KeptPlaces(s, l);
    DescribedPlaces(s, l);
    LinkSizesFit(l, dataoff + datasize, cpu);
  }

  /** The same in place: the bytes that stay are copied, the fields written one after the other. */
  method RewriteInPlace(s: Buffer, l: Layout, dataoff: nat, datasize: nat, cpu: Cpu) returns (out: array<Byte>)
    requires Describes(s, l) && Rewritable(l) && KeptEnd(l).value <= dataoff && dataoff + datasize < LIMIT32
    ensures fresh(out) && out[..] == Rewrite(s, l, dataoff, datasize, cpu)
  {
    hide Describes, Put, LinkMemory, LinkSize, KeptEnd, Resized, Described, Zeros;
    RewriteFits(s, l, dataoff, datasize, cpu);
    var end, kept := dataoff + datasize, KeptEnd(l).value;
    out := new Byte[end](_ => 0);
    AllZero(out[..]);
    PutBytes(out, 0, s[..kept]);
    CopiedFront(end, s[..kept]);
    DescribeInPlace(out, l, dataoff, datasize);
    ResizeInPlace(out, l.facts.linkedit.value.at, LinkSize(l, end), LinkMemory(l, end, cpu));
  }

  lemma {:induction false} AllZero(s: Buffer)
    requires forall i :: 0 <= i < |s| ==> s[i] == 0
    ensures s == Zeros(|s|)
  {
  }

  lemma {:induction false} CopiedFront(end: nat, front: Buffer)
    requires |front| <= end
    ensures Put(Zeros(end), 0, front) == front + Zeros(end - |front|)
  {
  }

  // ── The code directory ─────────────────────────────────────

  type Digest = b: Buffer | |b| == 32 witness Zeros(32)
  type Hash = Buffer -> Digest

  function PageEnd(i: nat, dataoff: nat): nat {
    if (i + 1) * CODE_PAGE < dataoff then (i + 1) * CODE_PAGE else dataoff
  }

  lemma {:induction false} PageStarts(i: nat, dataoff: nat)
    requires i < CodeSlots(dataoff)
    ensures i * CODE_PAGE < PageEnd(i, dataoff) <= dataoff
  {
  }

  /** The bytes a code slot stands for: a page of the program, the last one ending where the signature begins. */
  function CodePage(out: Buffer, dataoff: nat, i: nat): Buffer
    requires i < CodeSlots(dataoff) && dataoff <= |out|
  {
    PageStarts(i, dataoff);
    out[i * CODE_PAGE..PageEnd(i, dataoff)]
  }

  function PageHashes(out: Buffer, dataoff: nat, hash: Hash, n: nat): (h: Buffer)
    requires n <= CodeSlots(dataoff) && dataoff <= |out|
    ensures |h| == n * 32
  {
    if n == 0 then [] else PageHashes(out, dataoff, hash, n - 1) + hash(CodePage(out, dataoff, n - 1))
  }

  /** The executable segment: where it is and whether this is a main program. */
  function ExecutableSegment(l: Layout): (b: Buffer)
    requires l.facts.text.Some? ==> l.facts.text.value.fileoff < LIMIT64 && l.facts.text.value.filesize < LIMIT64
    ensures |b| == 24
  {
    (match l.facts.text
     case None => Zeros(16)
     case Some(text) => BE64(text.fileoff) + BE64(text.filesize)) + BE64(if l.filetype == 2 then 1 else 0)
  }

  function DirectoryHeader(l: Layout, identity: Buffer, dataoff: nat): (b: Buffer)
    requires l.facts.text.Some? ==> l.facts.text.value.fileoff < LIMIT64 && l.facts.text.value.filesize < LIMIT64
    requires dataoff < LIMIT32 && DirectorySize(identity, dataoff) < LIMIT32
    ensures |b| == 88
  {
    BE32(CODE_DIRECTORY) + BE32(DirectorySize(identity, dataoff)) + BE32(0x2_0400) + BE32(0)
    + BE32(HashOffset(identity) + 64) + BE32(88) + BE32(2) + BE32(CodeSlots(dataoff)) + BE32(dataoff)
    + ([32, 2, 0, 12] + Zeros(24) + ExecutableSegment(l))
  }

  function CodeDirectory(out: Buffer, l: Layout, identity: Buffer, dataoff: nat, hash: Hash): (cd: Buffer)
    requires l.facts.text.Some? ==> l.facts.text.value.fileoff < LIMIT64 && l.facts.text.value.filesize < LIMIT64
    requires dataoff < LIMIT32 && DirectorySize(identity, dataoff) < LIMIT32 && dataoff <= |out|
    ensures |cd| == DirectorySize(identity, dataoff)
  {
    DirectoryHeader(l, identity, dataoff) + (identity + [0]) + hash(EmptyRequirements()) + Zeros(32)
    + PageHashes(out, dataoff, hash, CodeSlots(dataoff))
  }

  /** The hashes as the code computes them, page by page. */
  method HashPages(out: Buffer, dataoff: nat, hash: Hash) returns (hashes: Buffer)
    requires dataoff <= |out|
    ensures hashes == PageHashes(out, dataoff, hash, CodeSlots(dataoff))
  {
    hashes := [];
    var i := 0;
    while i < CodeSlots(dataoff)
      invariant i <= CodeSlots(dataoff) && hashes == PageHashes(out, dataoff, hash, i)
    {
      PageStarts(i, dataoff);
      var start, end := i * CODE_PAGE, PageEnd(i, dataoff);
      hashes := hashes + hash(out[start..end]);
      i := i + 1;
    }
  }

  // ── Planning ───────────────────────────────────────────────

  datatype Plan = Plan(bytes: Buffer, dataoff: nat, datasize: nat, directory: Buffer)

  function PlanOf(s: Buffer, l: Layout, identity: Buffer, capacity: nat, hash: Hash, cpu: Cpu): (p: Plan)
    requires Describes(s, l) && Rewritable(l) && Reservable(identity, Align16(KeptEnd(l).value), capacity)
    ensures p.dataoff == Align16(KeptEnd(l).value) && p.datasize == RegionSize(identity, p.dataoff, capacity)
    ensures |p.bytes| == p.dataoff + p.datasize && |p.directory| == DirectorySize(identity, p.dataoff)
  {
    DescribedPlaces(s, l);
    AlignedUp(KeptEnd(l).value, 16);
    var dataoff := Align16(KeptEnd(l).value);
    var datasize := RegionSize(identity, dataoff, capacity);
    var bytes := Rewrite(s, l, dataoff, datasize, cpu);
    Plan(bytes, dataoff, datasize, CodeDirectory(bytes, l, identity, dataoff, hash))
  }

  /** The finished layout of a program, or a refusal. */
  function PlanSlice(s: Buffer, identity: Buffer, capacity: nat, hash: Hash, cpu: Cpu): Option<Plan> {
    var l :- ParseSlice(s);
    if l.kind != Thin64Little || !Rewritable(l) || !Reservable(identity, Align16(KeptEnd(l).value), capacity) then None
    else Some(PlanOf(s, l, identity, capacity, hash, cpu))
  }
}
