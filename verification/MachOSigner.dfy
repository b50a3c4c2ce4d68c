/** Signing a program: prepare, complete, extract, and signing again. */
module MachOSigner {
  import opened Bytes
  import opened MachOLayout
  import opened MachORewrite
  import opened MachOPlan
  import opened MachOSigned
  import opened MachOSuperBlob

  /** What the caller signs: the code directory of the finished layout and its hash. */
  datatype Prepared = Prepared(identity: Buffer, capacity: nat, cpu: Cpu, directory: Buffer, digest: Buffer)

  function Prepare(s: Buffer, identity: Buffer, capacity: nat, hash: Hash, cpu: Cpu): Option<Prepared> {
    var p :- PlanSlice(s, identity, capacity, hash, cpu);
    Some(Prepared(identity, capacity, cpu, p.directory, hash(p.directory)))
  }

  lemma {:induction false} BlobFits(directory: Buffer, cms: Buffer, capacity: nat, datasize: nat)
    requires |cms| <= capacity && datasize == Align16(FIXED_SIZE + |directory| + capacity)
    ensures TotalSize(directory, cms) <= datasize
  {
    AlignedUp(FIXED_SIZE + |directory| + capacity, 16);
  }

  lemma {:induction false} PlanSizes(s: Buffer, identity: Buffer, capacity: nat, hash: Hash, cpu: Cpu)
    requires PlanSlice(s, identity, capacity, hash, cpu).Some?
    ensures var p := PlanSlice(s, identity, capacity, hash, cpu).value;
      && |p.bytes| == p.dataoff + p.datasize < LIMIT32
      && p.datasize == Align16(FIXED_SIZE + |p.directory| + capacity)
  {
    hide ParseSlice, Rewritable, Align16;
  }

  /** The program with the signature in the reserved region; refused when the program is not the one prepared or the
      signature is larger than its reservation. */
  function Complete(s: Buffer, prepared: Prepared, cms: Buffer, hash: Hash, cpu: Cpu): Option<Buffer> {
    hide ParseSlice, PlanOf, Rewritable, Reservable, BuildSuperBlob;
    var p :- PlanSlice(s, prepared.identity, prepared.capacity, hash, cpu);
    if Prepared(prepared.identity, prepared.capacity, cpu, p.directory, hash(p.directory)) != prepared
       || |cms| > prepared.capacity then None
    else
      PlanSizes(s, prepared.identity, prepared.capacity, hash, cpu);
      BlobFits(p.directory, cms, prepared.capacity, p.datasize);
      Some(Put(p.bytes, p.dataoff, BuildSuperBlob(p.directory, cms)))
  }

  function Sign(s: Buffer, identity: Buffer, capacity: nat, cms: Buffer, hash: Hash, cpu: Cpu): Option<Buffer> {
    var prepared :- Prepare(s, identity, capacity, hash, cpu);
    Complete(s, prepared, cms, hash, cpu)
  }

  /** The signature region of a program, cut at the signature's own length. None is a rejection, Some(None) no signature. */
  function ExtractSignature(s: Buffer): Option<Option<Buffer>> {
    var l :- ParseSlice(s);
    if l.kind != Thin64Little then None
    else
      DescribedPlaces(s, l);
      match l.facts.codesig
      case None => Some(None)
      case Some(sig) =>
        if sig.dataoff == 0 || sig.datasize == 0 then Some(None)
        else
          var region := s[sig.dataoff..sig.dataoff + sig.datasize];
          Some(Some(region[..OwnLength(region)]))
  }

  function OwnLength(region: Buffer): (n: nat)
    ensures n <= |region|
  {
    if |region| >= 12 && B32(region, 0) == EMBEDDED_SIGNATURE && 12 <= B32(region, 4) <= |region| then B32(region, 4) else |region|
  }

  // ── The bytes of a signed program, region by region ────────

  /** An unsigned program that can be signed, and its commands. */
  ghost predicate Signable(s: Buffer, l: Layout, cs: seq<Buffer>, k: nat) {
    && Describes(s, l) && Rewritable(l) && l.facts.codesig.None?
    && Apart(s, cs) && Unsigned(cs, k, |s|, l.facts) && |cs[k]| >= 72
    && l.facts.linkedit.value.at == PlaceOf(cs[..k])
    && l.ncmds == |cs| && |cs| + 1 < LIMIT32 && l.sizeofcmds == |Join(cs)| && l.size == |s|
    && PlaceOf(cs) + SIGNATURE_COMMAND <= |s| && l.facts.linkedit.value.at + 72 <= PlaceOf(cs)
  }

  lemma {:induction false} TakeApart(s: Buffer, l: Layout) returns (cs: seq<Buffer>, k: nat)
    requires Describes(s, l) && Rewritable(l) && l.facts.codesig.None?
    ensures Signable(s, l, cs, k)
  {
    hide ParseSlice, Add, NameOf, U64, Fold, WellSized, AllWellSized, Classify, U32;
    KindIs(s, l);
    cs := ParsedApart(s);
    assert cs[..|cs|] == cs;
    k := FindLinkedit(cs, |cs|, |s|, PlaceOf(cs));
    LinkeditCommand(cs, k, |s|, PlaceOf(cs));
    KeptPlaces(s, l);
    DescribedPlaces(s, l);
  }

  /** There is room for the command and the region, and their fields hold the numbers. */
  ghost predicate Room(s: Buffer, l: Layout, dataoff: nat, datasize: nat, cpu: Cpu) {
    && l.facts.linkedit.Some? && HEADER <= l.facts.linkedit.value.at && l.facts.linkedit.value.at + 72 <= l.HeaderEnd()
    && l.HeaderEnd() + 16 <= |s| <= dataoff && dataoff + datasize < LIMIT32 && l.ncmds + 1 < LIMIT32
    && l.facts.linkedit.value.fileoff <= |s| && 0 <= LinkSize(l, dataoff + datasize) <= LinkMemory(l, dataoff + datasize, cpu) < LIMIT64
  }

  lemma {:induction false} SignableRoom(s: Buffer, l: Layout, cs: seq<Buffer>, k: nat, dataoff: nat, datasize: nat, cpu: Cpu)
    requires Signable(s, l, cs, k) && |s| <= dataoff && dataoff + datasize < LIMIT32
    ensures Room(s, l, dataoff, datasize, cpu)
  {
    hide ParseSlice, Unsigned, Apart, LinkMemory;
    LinkSizesFit(l, dataoff + datasize, cpu);
  }

  /** The program before the signature command, and its end, are its own but for the counts and the sizes. */
  ghost predicate Regions(r: Buffer, s: Buffer, l: Layout, dataoff: nat, datasize: nat, cpu: Cpu)
    requires Room(s, l, dataoff, datasize, cpu)
  {
    var end, total := l.HeaderEnd(), dataoff + datasize;
    && |r| >= dataoff
    && r[..16] == s[..16] && r[16..24] == Counts(l.ncmds + 1, l.sizeofcmds + SIGNATURE_COMMAND) && r[24..32] == s[24..32]
    && r[HEADER..end] == Resized(s[HEADER..end], l.facts.linkedit.value.at - HEADER, LinkSize(l, total), LinkMemory(l, total, cpu))
    && r[end..end + 16] == SignatureCommand(dataoff, datasize)
    && r[end + 16..dataoff] == s[end + 16..] + Zeros(dataoff - |s|)
  }

  /** The counts and the signature command leave every other region alone. */
  lemma {:induction false} DescribedRegions(s: Buffer, end: nat, command: Buffer, counts: Buffer, lo: nat, hi: nat)
    requires HEADER <= end && end + 16 <= |s| && |command| == 16 && |counts| == 8 && lo <= hi <= |s|
    ensures var r := Put(Put(s, end, command), 16, counts);
      && (hi <= 16 || (24 <= lo && hi <= end) || end + 16 <= lo ==> r[lo..hi] == s[lo..hi])
      && r[16..24] == counts && r[end..end + 16] == command
  {
    hide Put;
    var m := Put(s, end, command);
    if hi <= 16 || (24 <= lo && hi <= end) || end + 16 <= lo {
      PutApart(s, end, command, lo, hi);
      PutApart(m, 16, counts, lo, hi);
    }
    PutApart(m, 16, counts, end, end + 16);
  }

  /** The program before its link-edit sizes are written. */
  function Middle(s: Buffer, l: Layout, dataoff: nat, datasize: nat): (m: Buffer)
    requires HEADER <= l.HeaderEnd() && l.HeaderEnd() + 16 <= |s| <= dataoff && dataoff + datasize < LIMIT32 && l.ncmds + 1 < LIMIT32
    ensures |m| == dataoff + datasize
  {
    Put(Put(s + Zeros(dataoff + datasize - |s|), l.HeaderEnd(), SignatureCommand(dataoff, datasize)), 16,
        Counts(l.ncmds + 1, l.sizeofcmds + SIGNATURE_COMMAND))
  }

  lemma {:induction false} MiddleRegions(s: Buffer, l: Layout, dataoff: nat, datasize: nat)
    requires HEADER <= l.HeaderEnd() && l.HeaderEnd() + 16 <= |s| <= dataoff && dataoff + datasize < LIMIT32 && l.ncmds + 1 < LIMIT32
    ensures var m, end := Middle(s, l, dataoff, datasize), l.HeaderEnd();
      && m[..16] == s[..16] && m[16..24] == Counts(l.ncmds + 1, l.sizeofcmds + SIGNATURE_COMMAND) && m[24..32] == s[24..32]
      && m[HEADER..end] == s[HEADER..end]
      && m[end..end + 16] == SignatureCommand(dataoff, datasize)
      && m[end + 16..dataoff] == s[end + 16..] + Zeros(dataoff - |s|)
      && m[dataoff..] == Zeros(datasize)
  {
    hide Put, SignatureCommand, Counts;
    var total, end := dataoff + datasize, l.HeaderEnd();
    var base := s + Zeros(total - |s|);
    var command, counts := SignatureCommand(dataoff, datasize), Counts(l.ncmds + 1, l.sizeofcmds + SIGNATURE_COMMAND);
    DescribedRegions(base, end, command, counts, 0, 16);
    DescribedRegions(base, end, command, counts, 24, 32);
    DescribedRegions(base, end, command, counts, HEADER, end);
    DescribedRegions(base, end, command, counts, end + 16, dataoff);
    DescribedRegions(base, end, command, counts, dataoff, total);
    assert base[0..16] == s[..16] && base[24..32] == s[24..32] && base[HEADER..end] == s[HEADER..end];
    assert base[end + 16..dataoff] == s[end + 16..] + Zeros(dataoff - |s|);
    assert base[dataoff..total] == Zeros(datasize);
  }

  lemma {:induction false} RewriteIs(s: Buffer, l: Layout, cs: seq<Buffer>, k: nat, dataoff: nat, datasize: nat, cpu: Cpu)
    requires Signable(s, l, cs, k) && Room(s, l, dataoff, datasize, cpu)
    ensures Rewrite(s, l, dataoff, datasize, cpu)
         == Resized(Middle(s, l, dataoff, datasize), l.facts.linkedit.value.at, LinkSize(l, dataoff + datasize), LinkMemory(l, dataoff + datasize, cpu))
  {
    hide ParseSlice, Put, Resized, SignatureCommand, LE32, LinkMemory, Unsigned, Apart;
    assert s[..|s|] == s;
  }

  lemma {:induction false} RewriteRegions(s: Buffer, l: Layout, cs: seq<Buffer>, k: nat, dataoff: nat, datasize: nat, cpu: Cpu)
    requires Signable(s, l, cs, k) && Room(s, l, dataoff, datasize, cpu)
    ensures Regions(Rewrite(s, l, dataoff, datasize, cpu), s, l, dataoff, datasize, cpu)
    ensures Rewrite(s, l, dataoff, datasize, cpu)[dataoff..] == Zeros(datasize)
  {
    hide ParseSlice, Put, Resized, SignatureCommand, Counts, LinkMemory, Unsigned, Apart, Middle, Rewrite, Zeros;
    RewriteIs(s, l, cs, k, dataoff, datasize, cpu);
    MiddleRegions(s, l, dataoff, datasize);
    var total, end, at := dataoff + datasize, l.HeaderEnd(), l.facts.linkedit.value.at;
    var m, filesize, vmsize := Middle(s, l, dataoff, datasize), LinkSize(l, total), LinkMemory(l, total, cpu);
    ResizedApart(m, at, filesize, vmsize, 0, 16);
    ResizedApart(m, at, filesize, vmsize, 16, 24);
    ResizedApart(m, at, filesize, vmsize, 24, 32);
    ResizedApart(m, at, filesize, vmsize, end, end + 16);
    ResizedApart(m, at, filesize, vmsize, end + 16, dataoff);
    ResizedApart(m, at, filesize, vmsize, dataoff, total);
    ResizedInside(m, at, filesize, vmsize, HEADER, end);
  }

  /** The commands of the signed program. */
  ghost function NewCommands(cs: seq<Buffer>, k: nat, l: Layout, dataoff: nat, datasize: nat, cpu: Cpu): seq<Buffer>
    requires k < |cs| && |cs[k]| >= 72 && dataoff + datasize < LIMIT32 && l.facts.linkedit.Some?
    requires 0 <= LinkSize(l, dataoff + datasize) <= LinkMemory(l, dataoff + datasize, cpu) < LIMIT64
  {
    SignedCommands(cs, k, LinkSize(l, dataoff + datasize), LinkMemory(l, dataoff + datasize, cpu), dataoff, datasize)
  }

  /** A program with these regions comes apart into the relinked commands and the signature's. */
  lemma {:induction false} RegionsApart(r: Buffer, s: Buffer, l: Layout, cs: seq<Buffer>, k: nat, dataoff: nat, datasize: nat, cpu: Cpu)
    requires Signable(s, l, cs, k) && Room(s, l, dataoff, datasize, cpu) && Regions(r, s, l, dataoff, datasize, cpu)
    ensures Apart(r, NewCommands(cs, k, l, dataoff, datasize, cpu))
    ensures U32(r, 4) == U32(s, 4) && U32(r, 8) == U32(s, 8) && U32(r, 12) == U32(s, 12)
  {
    hide ParseSlice, Resized, SignatureCommand, Counts, U32, Relink, WellSized, AllWellSized, Add, Classify, LinkMemory;
    var filesize, vmsize := LinkSize(l, dataoff + datasize), LinkMemory(l, dataoff + datasize, cpu);
    var ds := RelinkAt(cs, k, filesize, vmsize);
    var end := l.HeaderEnd();
    RelinkedWhole(cs, k, filesize, vmsize);
    WellSizedMore(ds, dataoff, datasize);
    JoinSnoc(ds, SignatureCommand(dataoff, datasize));
    ResizedJoin(cs, k, filesize, vmsize);
    assert r[HEADER..end + 16] == r[HEADER..end] + r[end..end + 16];
    KindIs(s, l);
    ComesApart(s, r, NewCommands(cs, k, l, dataoff, datasize, cpu));
  }

  // ── What signing gives ─────────────────────────────────────

  /** The plan that was carried out. */
  lemma {:induction false} SignIs(s: Buffer, l: Layout, identity: Buffer, capacity: nat, cms: Buffer, hash: Hash, cpu: Cpu)
    requires Describes(s, l) && Sign(s, identity, capacity, cms, hash, cpu).Some?
    ensures Rewritable(l) && Reservable(identity, Align16(KeptEnd(l).value), capacity) && |cms| <= capacity
    ensures var p := PlanOf(s, l, identity, capacity, hash, cpu);
      && p.dataoff + p.datasize < LIMIT32 && TotalSize(p.directory, cms) <= p.datasize
      && Sign(s, identity, capacity, cms, hash, cpu) == Some(Put(p.bytes, p.dataoff, BuildSuperBlob(p.directory, cms)))
  {
    hide ParseSlice, PlanOf, Rewritable, Reservable, BuildSuperBlob, Put, Align16;
    PlanSizes(s, identity, capacity, hash, cpu);
    var p := PlanOf(s, l, identity, capacity, hash, cpu);
    BlobFits(p.directory, cms, capacity, p.datasize);
  }

  /** The place of everything in a program that was just signed. */
  ghost predicate JustSigned(t: Buffer, s: Buffer, l: Layout, p: Plan, cms: Buffer, cpu: Cpu) {
    && Room(s, l, p.dataoff, p.datasize, cpu) && Regions(t, s, l, p.dataoff, p.datasize, cpu)
    && |t| == |p.bytes| == p.dataoff + p.datasize && t[..p.dataoff] == p.bytes[..p.dataoff]
    && TotalSize(p.directory, cms) <= p.datasize && HoldsAt(t, p.dataoff, BuildSuperBlob(p.directory, cms))
  }

  lemma {:induction false} RegionsOfPrefix(r: Buffer, t: Buffer, s: Buffer, l: Layout, dataoff: nat, datasize: nat, cpu: Cpu)
    requires Room(s, l, dataoff, datasize, cpu) && Regions(r, s, l, dataoff, datasize, cpu) && |t| >= dataoff && t[..dataoff] == r[..dataoff]
    ensures Regions(t, s, l, dataoff, datasize, cpu)
  {
    hide Resized, Counts, SignatureCommand, Zeros, LinkMemory;
    var end := l.HeaderEnd();
    SameSlice(t, r, dataoff, 0, 16);
    SameSlice(t, r, dataoff, 16, 24);
    SameSlice(t, r, dataoff, 24, 32);
    SameSlice(t, r, dataoff, HEADER, end);
    SameSlice(t, r, dataoff, end, end + 16);
    SameSlice(t, r, dataoff, end + 16, dataoff);
  }

  lemma {:induction false} SameSlice(s: Buffer, t: Buffer, n: nat, lo: nat, hi: nat)
    requires lo <= hi <= n <= |s| && n <= |t| && s[..n] == t[..n]
    ensures s[lo..hi] == t[lo..hi]
  {
    assert s[lo..hi] == s[..n][lo..hi] && t[lo..hi] == t[..n][lo..hi];
  }

  lemma {:induction false} PlanBytes(s: Buffer, l: Layout, identity: Buffer, capacity: nat, hash: Hash, cpu: Cpu)
    requires Describes(s, l) && Rewritable(l) && Reservable(identity, Align16(KeptEnd(l).value), capacity)
    ensures var p := PlanOf(s, l, identity, capacity, hash, cpu);
      KeptEnd(l).value <= p.dataoff && p.dataoff + p.datasize < LIMIT32 && p.bytes == Rewrite(s, l, p.dataoff, p.datasize, cpu)
  {
    hide ParseSlice, Rewrite, CodeDirectory;
    AlignedUp(KeptEnd(l).value, 16);
  }

  lemma {:induction false} SignedBytes(s: Buffer, l: Layout, cs: seq<Buffer>, k: nat, identity: Buffer, capacity: nat, cms: Buffer, hash: Hash, cpu: Cpu)
    requires Signable(s, l, cs, k) && Sign(s, identity, capacity, cms, hash, cpu).Some?
    ensures Reservable(identity, Align16(KeptEnd(l).value), capacity)
    ensures JustSigned(Sign(s, identity, capacity, cms, hash, cpu).value, s, l, PlanOf(s, l, identity, capacity, hash, cpu), cms, cpu)
  {
    hide ParseSlice, PlanOf, Rewrite, Unsigned, Apart, Sign, BuildSuperBlob, Put, Room, Regions, Reservable, Align16;
    SignIs(s, l, identity, capacity, cms, hash, cpu);
    PlanBytes(s, l, identity, capacity, hash, cpu);
    var t, p := Sign(s, identity, capacity, cms, hash, cpu).value, PlanOf(s, l, identity, capacity, hash, cpu);
    SignableRoom(s, l, cs, k, p.dataoff, p.datasize, cpu);
    RewriteRegions(s, l, cs, k, p.dataoff, p.datasize, cpu);
    PutApart(p.bytes, p.dataoff, BuildSuperBlob(p.directory, cms), 0, p.dataoff);
    assert t[0..p.dataoff] == t[..p.dataoff] && p.bytes[0..p.dataoff] == p.bytes[..p.dataoff];
    RegionsOfPrefix(p.bytes, t, s, l, p.dataoff, p.datasize, cpu);
  }

  /** The layout of a program that was just signed: the old one with one more command. */
  ghost predicate SignedLayout(l: Layout, m: Layout, dataoff: nat, datasize: nat, cpu: Cpu) {
    var total := dataoff + datasize;
    && m.kind == Thin64Little && m.size == total && m.cputype == l.cputype && m.cpusubtype == l.cpusubtype && m.filetype == l.filetype
    && m.ncmds == l.ncmds + 1 && m.sizeofcmds == l.sizeofcmds + SIGNATURE_COMMAND
    && l.facts.linkedit.Some? && 0 <= LinkSize(l, total)
    && SignedFacts(l.facts, m.facts, l.HeaderEnd(), dataoff, datasize, LinkSize(l, total), LinkMemory(l, total, cpu))
  }

  lemma {:induction false} JustSignedParses(t: Buffer, s: Buffer, l: Layout, cs: seq<Buffer>, k: nat, p: Plan, cms: Buffer, cpu: Cpu)
    requires Signable(s, l, cs, k) && JustSigned(t, s, l, p, cms, cpu)
    ensures ParseSlice(t).Some? && SignedLayout(l, ParseSlice(t).value, p.dataoff, p.datasize, cpu)
  {
    hide ParseSlice, Apart, BuildSuperBlob, Regions, LinkMemory, FactsOf, Relink, SignatureCommand, Add, Fold;
    var es := NewCommands(cs, k, l, p.dataoff, p.datasize, cpu);
    RegionsApart(t, s, l, cs, k, p.dataoff, p.datasize, cpu);
    SignedKnown(cs, k, |s|, l.facts, p.dataoff, p.datasize, LinkSize(l, |t|), LinkMemory(l, |t|, cpu));
    ApartParses(t, es);
    FieldsOf(s, l);
  }

  /** Signing an unsigned program gives one that is accepted, with the commands it had and one signature command after
      them; the signature and the link-edit segment both end where the program ends, and nothing else it says changes. */
  lemma {:induction false} SignedParses(s: Buffer, l: Layout, identity: Buffer, capacity: nat, cms: Buffer, hash: Hash, cpu: Cpu)
    requires Describes(s, l) && l.facts.codesig.None? && Sign(s, identity, capacity, cms, hash, cpu).Some?
    ensures var t := Sign(s, identity, capacity, cms, hash, cpu).value;
      Align16(|s|) <= |t| && ParseSlice(t).Some? && SignedLayout(l, ParseSlice(t).value, Align16(|s|), |t| - Align16(|s|), cpu)
  {
    hide ParseSlice, PlanOf, Unsigned, Apart, Sign, BuildSuperBlob, Regions, Reservable, Align16, SignedLayout;
    SignIs(s, l, identity, capacity, cms, hash, cpu);
    var cs, k := TakeApart(s, l);
    SignedBytes(s, l, cs, k, identity, capacity, cms, hash, cpu);
    JustSignedParses(Sign(s, identity, capacity, cms, hash, cpu).value, s, l, cs, k, PlanOf(s, l, identity, capacity, hash, cpu), cms, cpu);
  }

  /** The header fields a layout repeats. */
  lemma {:induction false} FieldsOf(s: Buffer, l: Layout)
    requires Describes(s, l)
    ensures |s| >= HEADER && l.cputype == U32(s, 4) && l.cpusubtype == U32(s, 8) && l.filetype == U32(s, 12)
  {
    hide Commands, U32, Add;
  }
}
