/** Signing a program that was just signed: only the last signature counts. */
module MachOAgain {
  import opened Bytes
  import opened MachOLayout
  import opened MachOPlan
  import opened MachOSigned
  import opened MachOSigner
  import opened MachOSuperBlob

  /** Two programs with the same regions and the same end are the same. */
  lemma {:induction false} RegionsDetermine(q: Buffer, r: Buffer, s: Buffer, l: Layout, dataoff: nat, datasize: nat, cpu: Cpu)
    requires Room(s, l, dataoff, datasize, cpu) && Regions(q, s, l, dataoff, datasize, cpu) && Regions(r, s, l, dataoff, datasize, cpu)
    requires q[dataoff..] == r[dataoff..]
    ensures q == r
  {
    hide Resized, Counts, SignatureCommand, Zeros, LinkMemory;
    InParts(q, l.HeaderEnd(), dataoff);
    InParts(r, l.HeaderEnd(), dataoff);
  }

  lemma {:induction false} InParts(q: Buffer, end: nat, dataoff: nat)
    requires HEADER <= end && end + 16 <= dataoff <= |q|
    ensures q == q[..16] + q[16..24] + q[24..32] + q[HEADER..end] + q[end..end + 16] + q[end + 16..dataoff] + q[dataoff..]
  {
  }

  lemma {:induction false} PutSwap(s: Buffer, a: nat, p: Buffer, b: nat, q: Buffer)
    requires a + |p| <= |s| && b + |q| <= |s| && (a + |p| <= b || b + |q| <= a)
    ensures Put(Put(s, a, p), b, q) == Put(Put(s, b, q), a, p)
  {
    hide Put;
    var x, y := Put(Put(s, a, p), b, q), Put(Put(s, b, q), a, p);
    forall i | 0 <= i < |s| ensures x[i] == y[i] {
      if a <= i < a + |p| {
        assert x[i] == Put(s, a, p)[i] == Put(s, a, p)[a..a + |p|][i - a] && y[i] == y[a..a + |p|][i - a];
      } else if b <= i < b + |q| {
        assert y[i] == Put(s, b, q)[i] == Put(s, b, q)[b..b + |q|][i - b] && x[i] == x[b..b + |q|][i - b];
      }
    }
  }

  /** Sizes written twice are the last ones. */
  lemma {:induction false} ResizedTwice(s: Buffer, at: nat, filesize: nat, vmsize: nat, filesize': nat, vmsize': nat)
    requires at + 72 <= |s| && filesize < LIMIT64 && vmsize < LIMIT64 && filesize' < LIMIT64 && vmsize' < LIMIT64
    ensures Resized(Resized(s, at, filesize, vmsize), at, filesize', vmsize') == Resized(s, at, filesize', vmsize')
  {
    hide Put, LE64;
    var a, b, a', b' := LE64(filesize), LE64(vmsize), LE64(filesize'), LE64(vmsize');
    var x := Put(s, at + 48, a);
    PutSwap(x, at + 32, b, at + 48, a');
    PutOver(s, at + 48, a, a');
    PutOver(Put(s, at + 48, a'), at + 32, b, b');
  }

  /** What signing again relies on. */
  ghost predicate SignedOnce(t: Buffer, s: Buffer, l: Layout, m: Layout, p: Plan, cms: Buffer, cpu: Cpu) {
    && JustSigned(t, s, l, p, cms, cpu) && Describes(t, m) && SignedLayout(l, m, p.dataoff, p.datasize, cpu) && p.dataoff == Align16(|s|)
  }

  lemma {:induction false} AgainRewritable(t: Buffer, s: Buffer, l: Layout, m: Layout, p: Plan, cms: Buffer, cpu: Cpu)
    requires SignedOnce(t, s, l, m, p, cms, cpu)
    ensures Rewritable(m) && KeptEnd(m) == Some(p.dataoff) && Align16(p.dataoff) == p.dataoff
    ensures forall end :: LinkSize(m, end) == LinkSize(l, end)
    ensures forall end :: LinkSize(l, end) >= 0 ==> LinkMemory(m, end, cpu) == LinkMemory(l, end, cpu)
  {
    hide ParseSlice, Regions, BuildSuperBlob, AlignUp;
    AlignedUp(|s|, 16);
    AlignedUp(p.dataoff, 16);
  }

  /** The signature command with another size of the data. */
  lemma {:induction false} CommandAgain(s: Buffer, at: nat, dataoff: nat, datasize: nat, datasize': nat)
    requires dataoff < LIMIT32 && datasize < LIMIT32 && datasize' < LIMIT32 && HoldsAt(s, at, SignatureCommand(dataoff, datasize))
    ensures HoldsAt(Put(s, at + 8, LE32(dataoff) + LE32(datasize')), at, SignatureCommand(dataoff, datasize'))
  {
    hide LE32, Put;
    var r := Put(s, at + 8, LE32(dataoff) + LE32(datasize'));
    PutApart(s, at + 8, LE32(dataoff) + LE32(datasize'), at, at + 8);
    assert s[at..at + 8] == s[at..at + 16][..8] == LE32(LC_CODE_SIGNATURE) + LE32(SIGNATURE_COMMAND);
    assert r[at..at + 16] == r[at..at + 8] + r[at + 8..at + 16];
  }

  /** The bytes before the link-edit sizes are written again. */
  function MiddleAgain(t: Buffer, at: nat, dataoff: nat, datasize: nat): (m: Buffer)
    requires dataoff <= |t| && at + 16 <= dataoff && dataoff + datasize < LIMIT32
    ensures |m| == dataoff + datasize
  {
    Put(t[..dataoff] + Zeros(datasize), at + 8, LE32(dataoff) + LE32(datasize))
  }

  lemma {:induction false} RewriteAgainIs(t: Buffer, s: Buffer, l: Layout, m: Layout, p: Plan, cms: Buffer, datasize: nat, cpu: Cpu)
    requires SignedOnce(t, s, l, m, p, cms, cpu) && p.dataoff + datasize < LIMIT32 && Room(s, l, p.dataoff, datasize, cpu)
    ensures Rewritable(m) && KeptEnd(m) == Some(p.dataoff)
    ensures Rewrite(t, m, p.dataoff, datasize, cpu)
         == Resized(MiddleAgain(t, l.HeaderEnd(), p.dataoff, datasize), l.facts.linkedit.value.at,
                    LinkSize(l, p.dataoff + datasize), LinkMemory(l, p.dataoff + datasize, cpu))
  {
    hide ParseSlice, Regions, BuildSuperBlob, Put, Resized, LE32, LinkMemory, LinkSize, Zeros, Rewritable;
    AgainRewritable(t, s, l, m, p, cms, cpu);
  }

  lemma {:induction false} Front(t: Buffer, n: nat, z: Buffer, lo: nat, hi: nat)
    requires lo <= hi <= n <= |t|
    ensures (t[..n] + z)[lo..hi] == t[lo..hi]
  {
    SliceOfPrefix(t[..n], z, lo, hi);
    assert t[..n][lo..hi] == t[lo..hi];
  }

  lemma {:induction false} MiddleAgainRegions(t: Buffer, s: Buffer, l: Layout, dataoff: nat, old': nat, datasize: nat, cpu: Cpu)
    requires Room(s, l, dataoff, old', cpu) && Regions(t, s, l, dataoff, old', cpu) && dataoff + datasize < LIMIT32
    ensures var q, end := MiddleAgain(t, l.HeaderEnd(), dataoff, datasize), l.HeaderEnd();
      && q[..16] == s[..16] && q[16..24] == t[16..24] && q[24..32] == s[24..32] && q[HEADER..end] == t[HEADER..end]
      && q[end..end + 16] == SignatureCommand(dataoff, datasize) && q[end + 16..dataoff] == t[end + 16..dataoff]
      && q[dataoff..] == Zeros(datasize)
  {
    hide Resized, Counts, SignatureCommand, Zeros, LinkMemory, LinkSize, LE32, Put;
    var base, end, piece := t[..dataoff] + Zeros(datasize), l.HeaderEnd(), LE32(dataoff) + LE32(datasize);
    PutApart(base, end + 8, piece, 0, 16);
    PutApart(base, end + 8, piece, 16, 24);
    PutApart(base, end + 8, piece, 24, 32);
    PutApart(base, end + 8, piece, HEADER, end);
    PutApart(base, end + 8, piece, end + 16, dataoff);
    PutApart(base, end + 8, piece, dataoff, dataoff + datasize);
    Front(t, dataoff, Zeros(datasize), 0, 16);
    Front(t, dataoff, Zeros(datasize), 16, 24);
    Front(t, dataoff, Zeros(datasize), 24, 32);
    Front(t, dataoff, Zeros(datasize), HEADER, end);
    Front(t, dataoff, Zeros(datasize), end, end + 16);
    Front(t, dataoff, Zeros(datasize), end + 16, dataoff);
    assert base[dataoff..dataoff + datasize] == Zeros(datasize);
    CommandAgain(base, end, dataoff, old', datasize);
  }

  /** Rewriting the signed program gives the regions that rewriting the unsigned one gives. */
  lemma {:induction false} AgainRegions(t: Buffer, s: Buffer, l: Layout, dataoff: nat, old': nat, datasize: nat, cpu: Cpu)
    requires Room(s, l, dataoff, old', cpu) && Regions(t, s, l, dataoff, old', cpu) && Room(s, l, dataoff, datasize, cpu)
    ensures var q := Resized(MiddleAgain(t, l.HeaderEnd(), dataoff, datasize), l.facts.linkedit.value.at,
                             LinkSize(l, dataoff + datasize), LinkMemory(l, dataoff + datasize, cpu));
      Regions(q, s, l, dataoff, datasize, cpu) && q[dataoff..] == Zeros(datasize)
  {
    hide Resized, Counts, SignatureCommand, Zeros, LinkMemory, LinkSize, MiddleAgain;
    MiddleAgainRegions(t, s, l, dataoff, old', datasize, cpu);
    var total, end, at := dataoff + datasize, l.HeaderEnd(), l.facts.linkedit.value.at;
    var m, filesize, vmsize := MiddleAgain(t, end, dataoff, datasize), LinkSize(l, total), LinkMemory(l, total, cpu);
    ResizedApart(m, at, filesize, vmsize, 0, 16);
    ResizedApart(m, at, filesize, vmsize, 16, 24);
    ResizedApart(m, at, filesize, vmsize, 24, 32);
    ResizedApart(m, at, filesize, vmsize, end, end + 16);
    ResizedApart(m, at, filesize, vmsize, end + 16, dataoff);
    ResizedApart(m, at, filesize, vmsize, dataoff, total);
    ResizedInside(m, at, filesize, vmsize, HEADER, end);
    ResizedTwice(s[HEADER..end], at - HEADER, LinkSize(l, dataoff + old'), LinkMemory(l, dataoff + old', cpu), filesize, vmsize);
  }

  lemma {:induction false} RewriteAgain(t: Buffer, s: Buffer, l: Layout, cs: seq<Buffer>, k: nat, m: Layout, p: Plan, cms: Buffer, datasize: nat, cpu: Cpu)
    requires Signable(s, l, cs, k) && SignedOnce(t, s, l, m, p, cms, cpu) && p.dataoff + datasize < LIMIT32
    ensures Rewritable(m) && KeptEnd(m) == Some(p.dataoff)
    ensures Rewrite(t, m, p.dataoff, datasize, cpu) == Rewrite(s, l, p.dataoff, datasize, cpu)
  {
    hide ParseSlice, Regions, BuildSuperBlob, Rewrite, Resized, Unsigned, Apart, Rewritable, LinkMemory, LinkSize, MiddleAgain;
    SignableRoom(s, l, cs, k, p.dataoff, datasize, cpu);
    RewriteAgainIs(t, s, l, m, p, cms, datasize, cpu);
    AgainRegions(t, s, l, p.dataoff, p.datasize, datasize, cpu);
    RewriteRegions(s, l, cs, k, p.dataoff, datasize, cpu);
    RegionsDetermine(Rewrite(t, m, p.dataoff, datasize, cpu), Rewrite(s, l, p.dataoff, datasize, cpu), s, l, p.dataoff, datasize, cpu);
  }

  /** Planning to sign the signed program is planning to sign the unsigned one: the same bytes and the same code
      directory for every identity and capacity, refused for the same ones. */
  lemma {:induction false} PlanAgain(s: Buffer, l: Layout, identity: Buffer, capacity: nat, cms: Buffer, identity': Buffer, capacity': nat, hash: Hash, cpu: Cpu)
    requires Describes(s, l) && l.facts.codesig.None? && Sign(s, identity, capacity, cms, hash, cpu).Some?
    ensures PlanSlice(Sign(s, identity, capacity, cms, hash, cpu).value, identity', capacity', hash, cpu) == PlanSlice(s, identity', capacity', hash, cpu)
    ensures ParseSlice(Sign(s, identity, capacity, cms, hash, cpu).value).Some?
    ensures var m := ParseSlice(Sign(s, identity, capacity, cms, hash, cpu).value).value; m.cputype == l.cputype && m.cpusubtype == l.cpusubtype
  {
    hide ParseSlice, Regions, Room, BuildSuperBlob, Rewrite, Unsigned, Apart, Sign, Reservable, CodeDirectory, Align16;
    SignIs(s, l, identity, capacity, cms, hash, cpu);
    var cs, k := TakeApart(s, l);
    SignedBytes(s, l, cs, k, identity, capacity, cms, hash, cpu);
    var t, p := Sign(s, identity, capacity, cms, hash, cpu).value, PlanOf(s, l, identity, capacity, hash, cpu);
    PlanBytes(s, l, identity, capacity, hash, cpu);
    JustSignedParses(t, s, l, cs, k, p, cms, cpu);
    var m := ParseSlice(t).value;
    AgainRewritable(t, s, l, m, p, cms, cpu);
    if Reservable(identity', p.dataoff, capacity') {
      ReservedFits(identity', p.dataoff, capacity');
      RewriteAgain(t, s, l, cs, k, m, p, cms, RegionSize(identity', p.dataoff, capacity'), cpu);
      SameDirectory(Rewrite(s, l, p.dataoff, RegionSize(identity', p.dataoff, capacity'), cpu), l, m, identity', p.dataoff, hash, s, t);
    }
  }

  lemma {:induction false} ReservedFits(identity: Buffer, dataoff: nat, capacity: nat)
    requires Reservable(identity, dataoff, capacity)
    ensures dataoff + RegionSize(identity, dataoff, capacity) < LIMIT32 && DirectorySize(identity, dataoff) < LIMIT32
  {
  }

  lemma {:induction false} SameDirectory(out: Buffer, l: Layout, m: Layout, identity: Buffer, dataoff: nat, hash: Hash, s: Buffer, t: Buffer)
    requires Describes(s, l) && Describes(t, m) && l.facts.text == m.facts.text && l.filetype == m.filetype
    requires dataoff < LIMIT32 && DirectorySize(identity, dataoff) < LIMIT32 && dataoff <= |out|
    ensures l.facts.text.Some? ==> l.facts.text.value.fileoff < LIMIT64 && l.facts.text.value.filesize < LIMIT64
    ensures CodeDirectory(out, l, identity, dataoff, hash) == CodeDirectory(out, m, identity, dataoff, hash)
  {
    hide ParseSlice, PageHashes, DirectorySize, EmptyRequirements, BE32, BE64, Zeros;
    DescribedPlaces(s, l);
    DescribedPlaces(t, m);
  }

  /** Signing again replaces the signature: the result is what signing the unsigned program that way gives. */
  lemma {:induction false} LastSigningWins(s: Buffer, l: Layout, identity: Buffer, capacity: nat, cms: Buffer,
                                           identity': Buffer, capacity': nat, cms': Buffer, hash: Hash, cpu: Cpu)
    requires Describes(s, l) && l.facts.codesig.None? && Sign(s, identity, capacity, cms, hash, cpu).Some?
    ensures Sign(Sign(s, identity, capacity, cms, hash, cpu).value, identity', capacity', cms', hash, cpu) == Sign(s, identity', capacity', cms', hash, cpu)
  {
    hide ParseSlice, PlanSlice, BuildSuperBlob;
    PlanAgain(s, l, identity, capacity, cms, identity', capacity', hash, cpu);
  }

  /** Signing again in the same way changes nothing. */
  lemma {:induction false} SigningIsFixed(s: Buffer, l: Layout, identity: Buffer, capacity: nat, cms: Buffer, hash: Hash, cpu: Cpu)
    requires Describes(s, l) && l.facts.codesig.None? && Sign(s, identity, capacity, cms, hash, cpu).Some?
    ensures var t := Sign(s, identity, capacity, cms, hash, cpu).value; Sign(t, identity, capacity, cms, hash, cpu) == Some(t)
  {
    hide Sign;
    LastSigningWins(s, l, identity, capacity, cms, identity, capacity, cms, hash, cpu);
  }
}
