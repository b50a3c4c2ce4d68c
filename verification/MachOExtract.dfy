/** What a reader of a signed program finds: the signature, its two blobs, and the page each code slot stands for. */
module MachOExtract {
  import opened Bytes
  import opened MachOLayout
  import opened MachOPlan
  import opened MachOSigned
  import opened MachOSigner
  import opened MachOSuperBlob

  // ── The code directory's fields ────────────────────────────

  lemma {:induction false} DirectoryFields(l: Layout, identity: Buffer, dataoff: nat)
    requires l.facts.text.Some? ==> l.facts.text.value.fileoff < LIMIT64 && l.facts.text.value.filesize < LIMIT64
    requires dataoff < LIMIT32 && DirectorySize(identity, dataoff) < LIMIT32
    ensures var h := DirectoryHeader(l, identity, dataoff);
      && B32(h, 0) == CODE_DIRECTORY && B32(h, 4) == DirectorySize(identity, dataoff) && B32(h, 16) == HashOffset(identity) + 64
      && B32(h, 28) == CodeSlots(dataoff) && B32(h, 32) == dataoff
  {
    hide B32, BE32, ExecutableSegment, Zeros, DirectorySize, CodeSlots, HashOffset;
    var h := DirectoryHeader(l, identity, dataoff);
    CountsFit(identity, dataoff);
    assert HoldsAt(h, 0, BE32(CODE_DIRECTORY)) && HoldsAt(h, 4, BE32(DirectorySize(identity, dataoff)));
    assert HoldsAt(h, 16, BE32(HashOffset(identity) + 64)) && HoldsAt(h, 28, BE32(CodeSlots(dataoff))) && HoldsAt(h, 32, BE32(dataoff));
    BigWord(h, 0, CODE_DIRECTORY);
    BigWord(h, 4, DirectorySize(identity, dataoff));
    BigWord(h, 16, HashOffset(identity) + 64);
    BigWord(h, 28, CodeSlots(dataoff));
    BigWord(h, 32, dataoff);
  }

  lemma {:induction false} CountsFit(identity: Buffer, dataoff: nat)
    requires DirectorySize(identity, dataoff) < LIMIT32
    ensures HashOffset(identity) + 64 <= DirectorySize(identity, dataoff) && CodeSlots(dataoff) <= DirectorySize(identity, dataoff)
  {
  }

  lemma {:induction false} PageHashAt(out: Buffer, dataoff: nat, hash: Hash, n: nat, i: nat)
    requires i < n <= CodeSlots(dataoff) && dataoff <= |out|
    ensures HoldsAt(PageHashes(out, dataoff, hash, n), i * 32, hash(CodePage(out, dataoff, i)))
  {
    hide CodePage, CodeSlots;
    if i < n - 1 { PageHashAt(out, dataoff, hash, n - 1, i); }
  }

  /** Where the fields and the hashes of a code directory are. */
  ghost predicate Seals(cd: Buffer, out: Buffer, dataoff: nat, hash: Hash) {
    && IsCodeDirectory(cd) && |cd| >= 36 && dataoff <= |out|
    && B32(cd, 28) == CodeSlots(dataoff) && B32(cd, 32) == dataoff
    && forall i: nat :: i < CodeSlots(dataoff) ==> SlotSeals(cd, out, dataoff, hash, i)
  }

  ghost predicate SlotSeals(cd: Buffer, out: Buffer, dataoff: nat, hash: Hash, i: nat)
    requires |cd| >= 36 && dataoff <= |out| && i < CodeSlots(dataoff)
  {
    HoldsAt(cd, B32(cd, 16) + i * 32, hash(CodePage(out, dataoff, i)))
  }

  lemma {:induction false} DirectorySeals(out: Buffer, l: Layout, identity: Buffer, dataoff: nat, hash: Hash)
    requires l.facts.text.Some? ==> l.facts.text.value.fileoff < LIMIT64 && l.facts.text.value.filesize < LIMIT64
    requires dataoff < LIMIT32 && DirectorySize(identity, dataoff) < LIMIT32 && dataoff <= |out|
    ensures Seals(CodeDirectory(out, l, identity, dataoff, hash), out, dataoff, hash)
  {
    hide B32, DirectoryHeader, CodePage, PageHashes, EmptyRequirements, Zeros, CodeSlots;
    var cd, h := CodeDirectory(out, l, identity, dataoff, hash), DirectoryHeader(l, identity, dataoff);
    DirectoryFields(l, identity, dataoff);
    assert HoldsAt(cd, 0, h);
    BigInside(cd, 0, h, 0);
    BigInside(cd, 0, h, 4);
    BigInside(cd, 0, h, 16);
    BigInside(cd, 0, h, 28);
    BigInside(cd, 0, h, 32);
    var hashes := PageHashes(out, dataoff, hash, CodeSlots(dataoff));
    assert HoldsAt(cd, HashOffset(identity) + 64, hashes);
    forall i: nat | i < CodeSlots(dataoff) ensures SlotSeals(cd, out, dataoff, hash, i) {
      PageHashAt(out, dataoff, hash, CodeSlots(dataoff), i);
      HoldsWithin(cd, HashOffset(identity) + 64, hashes, i * 32, hash(CodePage(out, dataoff, i)));
    }
  }

  /** The pages below the signature are what counts. */
  lemma {:induction false} SealsPrefix(cd: Buffer, out: Buffer, t: Buffer, dataoff: nat, hash: Hash)
    requires Seals(cd, out, dataoff, hash) && dataoff <= |t| && t[..dataoff] == out[..dataoff]
    ensures Seals(cd, t, dataoff, hash)
  {
    hide B32, CodeSlots;
    forall i: nat | i < CodeSlots(dataoff) ensures SlotSeals(cd, t, dataoff, hash, i) {
      assert SlotSeals(cd, out, dataoff, hash, i);
      PageStarts(i, dataoff);
      SameSlice(t, out, dataoff, i * CODE_PAGE, PageEnd(i, dataoff));
    }
  }

  // ── The signature ──────────────────────────────────────────

  lemma {:induction false} OwnLengthIs(region: Buffer, cd: Buffer, cms: Buffer)
    requires TotalSize(cd, cms) < LIMIT32 && HoldsAt(region, 0, BuildSuperBlob(cd, cms))
    ensures OwnLength(region) == TotalSize(cd, cms) && region[..OwnLength(region)] == BuildSuperBlob(cd, cms)
  {
    hide BE32, B32, BuildSuperBlob, IndexEntry, Wrapper;
    BlobParts(cd, cms);
    var b := BuildSuperBlob(cd, cms);
    HoldsWithin(region, 0, b, 0, BE32(EMBEDDED_SIGNATURE));
    HoldsWithin(region, 0, b, 4, BE32(TotalSize(cd, cms)));
    BigWord(region, 0, EMBEDDED_SIGNATURE);
    BigWord(region, 4, TotalSize(cd, cms));
  }

  /** The signature comes back out of the signed program, without the zeros that fill its region. */
  lemma {:induction false} JustSignedExtracts(t: Buffer, s: Buffer, l: Layout, p: Plan, cms: Buffer, cpu: Cpu)
    requires JustSigned(t, s, l, p, cms, cpu) && ParseSlice(t).Some? && SignedLayout(l, ParseSlice(t).value, p.dataoff, p.datasize, cpu)
    ensures ExtractSignature(t) == Some(Some(BuildSuperBlob(p.directory, cms)))
  {
    hide ParseSlice, BuildSuperBlob, OwnLength, Regions, LinkMemory, LinkSize;
    var region := t[p.dataoff..p.dataoff + p.datasize];
    assert region[0..TotalSize(p.directory, cms)] == t[p.dataoff..p.dataoff + TotalSize(p.directory, cms)];
    OwnLengthIs(region, p.directory, cms);
  }

  /** From the signed program alone a reader gets the CMS blob and the prepared code directory, and every slot of
      that directory is the hash of the page of the finished program it stands for, up to where the signature begins. */
  lemma {:induction false} SignedVerifies(s: Buffer, l: Layout, identity: Buffer, capacity: nat, cms: Buffer, hash: Hash, cpu: Cpu)
    requires Describes(s, l) && l.facts.codesig.None? && Sign(s, identity, capacity, cms, hash, cpu).Some?
    ensures var t := Sign(s, identity, capacity, cms, hash, cpu).value;
      && ExtractSignature(t).Some? && ExtractSignature(t).value.Some?
      && var blob := ExtractSignature(t).value.value;
         && ExtractCms(blob) == Some(Some(cms))
         && Prepare(s, identity, capacity, hash, cpu).Some?
         && ExtractCodeDirectory(blob) == Some(Some(Prepare(s, identity, capacity, hash, cpu).value.directory))
         && Seals(Prepare(s, identity, capacity, hash, cpu).value.directory, t, Align16(|s|), hash)
  {
    hide ParseSlice, Regions, Room, Seals, SignedLayout, CodeDirectory, BuildSuperBlob, ExtractCms, ExtractCodeDirectory, ExtractSignature,
         Reservable, Rewrite, Unsigned, Apart, Align16;
    SignIs(s, l, identity, capacity, cms, hash, cpu);
    var cs, k := TakeApart(s, l);
    SignedBytes(s, l, cs, k, identity, capacity, cms, hash, cpu);
    var t, p := Sign(s, identity, capacity, cms, hash, cpu).value, PlanOf(s, l, identity, capacity, hash, cpu);
    JustSignedParses(t, s, l, cs, k, p, cms, cpu);
    JustSignedExtracts(t, s, l, p, cms, cpu);
    PlanSeals(s, l, identity, capacity, hash, cpu);
    SealsPrefix(p.directory, p.bytes, t, p.dataoff, hash);
    IsDirectory(p.directory, p.bytes, p.dataoff, hash);
    ExtractBuilt(p.directory, cms);
  }

  lemma {:induction false} IsDirectory(cd: Buffer, out: Buffer, dataoff: nat, hash: Hash)
    requires Seals(cd, out, dataoff, hash)
    ensures IsCodeDirectory(cd)
  {
  }

  lemma {:induction false} PlanSeals(s: Buffer, l: Layout, identity: Buffer, capacity: nat, hash: Hash, cpu: Cpu)
    requires Describes(s, l) && Rewritable(l) && Reservable(identity, Align16(KeptEnd(l).value), capacity)
    ensures var p := PlanOf(s, l, identity, capacity, hash, cpu); Seals(p.directory, p.bytes, p.dataoff, hash)
  {
    hide ParseSlice, Rewrite, CodeDirectory, Seals;
    DescribedPlaces(s, l);
    var p := PlanOf(s, l, identity, capacity, hash, cpu);
    DirectorySeals(p.bytes, l, identity, p.dataoff, hash);
  }
}
