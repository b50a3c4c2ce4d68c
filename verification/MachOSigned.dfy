/** The commands of a program that was just signed, or stripped again: what the rewritten bytes come apart into. */
module MachOSigned {
  import opened Bytes
  import opened MachOLayout
  import opened MachORewrite
  import opened MachOPlan

  // ── Writes and joined commands ─────────────────────────────

  /** A write inside a range. */
  lemma {:induction false} PutInside(s: Buffer, at: nat, piece: Buffer, lo: nat, hi: nat)
    requires lo <= at && at + |piece| <= hi <= |s|
    ensures Put(s, at, piece)[lo..hi] == Put(s[lo..hi], at - lo, piece)
  {
    hide Put;
    var x, y := Put(s, at, piece)[lo..hi], Put(s[lo..hi], at - lo, piece);
    forall i | 0 <= i < hi - lo ensures x[i] == y[i] {
      if at - lo <= i < at - lo + |piece| {
        assert x[i] == Put(s, at, piece)[lo + i] == Put(s, at, piece)[at..at + |piece|][lo + i - at];
        assert y[i] == y[at - lo..at - lo + |piece|][i - (at - lo)];
      }
    }
  }

  /** A write inside one of the joined pieces. */
  lemma {:induction false} JoinPut(cs: seq<Buffer>, k: nat, at: nat, piece: Buffer)
    requires k < |cs| && at + |piece| <= |cs[k]|
    ensures |Join(cs[..k])| + at + |piece| <= |Join(cs)|
    ensures Put(Join(cs), |Join(cs[..k])| + at, piece) == Join(cs[k := Put(cs[k], at, piece)])
    decreases |cs|
  {
    hide Put;
    var n := |cs| - 1;
    var ds := cs[k := Put(cs[k], at, piece)];
    JoinSlice(cs, k);
    if k < n {
      assert cs[..n][..k] == cs[..k];
      JoinPut(cs[..n], k, at, piece);
      assert ds[..n] == cs[..n][k := Put(cs[k], at, piece)];
      PutLeft(Join(cs[..n]), cs[n], |Join(cs[..k])| + at, piece);
    } else {
      assert ds[..n] == cs[..n];
      PutRight(Join(cs[..n]), cs[n], at, piece);
    }
  }

  lemma {:induction false} PutLeft(a: Buffer, b: Buffer, at: nat, piece: Buffer)
    requires at + |piece| <= |a|
    ensures Put(a + b, at, piece) == Put(a, at, piece) + b
  {
  }

  lemma {:induction false} PutRight(a: Buffer, b: Buffer, at: nat, piece: Buffer)
    requires at + |piece| <= |b|
    ensures Put(a + b, |a| + at, piece) == a + Put(b, at, piece)
  {
  }

  /** Writing the link-edit sizes where the command stands relinks it. */
  lemma {:induction false} ResizedJoin(cs: seq<Buffer>, k: nat, filesize: nat, vmsize: nat)
    requires k < |cs| && |cs[k]| >= 72 && filesize < LIMIT64 && vmsize < LIMIT64
    ensures |Join(cs[..k])| + 72 <= |Join(cs)|
    ensures Resized(Join(cs), |Join(cs[..k])|, filesize, vmsize) == Join(RelinkAt(cs, k, filesize, vmsize))
  {
    hide LE64, Put;
    var a := Put(cs[k], 48, LE64(filesize));
    var ds := cs[k := a];
    JoinSlice(cs, k);
    JoinPut(cs, k, 48, LE64(filesize));
    assert ds[..k] == cs[..k];
    JoinPut(ds, k, 32, LE64(vmsize));
    assert ds[k := Put(a, 32, LE64(vmsize))] == RelinkAt(cs, k, filesize, vmsize);
  }

  lemma {:induction false} ResizedInside(s: Buffer, at: nat, filesize: nat, vmsize: nat, lo: nat, hi: nat)
    requires lo <= at && at + 72 <= hi <= |s| && filesize < LIMIT64 && vmsize < LIMIT64
    ensures Resized(s, at, filesize, vmsize)[lo..hi] == Resized(s[lo..hi], at - lo, filesize, vmsize)
  {
    hide LE64, Put;
    PutInside(s, at + 48, LE64(filesize), lo, hi);
    PutInside(Put(s, at + 48, LE64(filesize)), at + 32, LE64(vmsize), lo, hi);
  }

  lemma {:induction false} ResizedApart(s: Buffer, at: nat, filesize: nat, vmsize: nat, lo: nat, hi: nat)
    requires at + 72 <= |s| && lo <= hi <= |s| && filesize < LIMIT64 && vmsize < LIMIT64 && (hi <= at || at + 72 <= lo)
    ensures Resized(s, at, filesize, vmsize)[lo..hi] == s[lo..hi]
  {
    hide LE64, Put;
    PutApart(s, at + 48, LE64(filesize), lo, hi);
    PutApart(Put(s, at + 48, LE64(filesize)), at + 32, LE64(vmsize), lo, hi);
  }

  // ── Headers ────────────────────────────────────────────────

  lemma {:induction false} SameKind(s: Buffer, t: Buffer)
    requires |s| >= 4 && |t| >= 4 && s[..4] == t[..4]
    ensures Classify(s) == Classify(t)
  {
    assert s[0] == s[..4][0] && s[1] == s[..4][1] && s[2] == s[..4][2] && s[3] == s[..4][3];
    assert t[0] == t[..4][0] && t[1] == t[..4][1] && t[2] == t[..4][2] && t[3] == t[..4][3];
  }

  /** What the header says of the commands. */
  function Counts(ncmds: nat, sizeofcmds: nat): (b: Buffer)
    requires ncmds < LIMIT32 && sizeofcmds < LIMIT32
    ensures |b| == 8
  {
    LE32(ncmds) + LE32(sizeofcmds)
  }

  lemma {:induction false} CountsRead(s: Buffer, ncmds: nat, sizeofcmds: nat)
    requires |s| >= 24 && ncmds < LIMIT32 && sizeofcmds < LIMIT32 && s[16..24] == Counts(ncmds, sizeofcmds)
    ensures U32(s, 16) == ncmds && U32(s, 20) == sizeofcmds
  {
    hide LE32, U32;
    assert s[16..20] == s[16..24][..4] == LE32(ncmds);
    assert s[20..24] == s[16..24][4..] == LE32(sizeofcmds);
    Read32(s, 16, ncmds);
    Read32(s, 20, sizeofcmds);
  }

  /** A program with these commands and a header that says so comes apart into them. */
  lemma {:induction false} ComesApart(s: Buffer, t: Buffer, cs: seq<Buffer>)
    requires Classify(s) == Thin64Little && |s| >= 32 && |t| >= PlaceOf(cs) && t[..16] == s[..16]
    requires AllWellSized(cs) && |cs| < LIMIT32 && |Join(cs)| < LIMIT32 && t[16..24] == Counts(|cs|, |Join(cs)|)
    requires t[HEADER..PlaceOf(cs)] == Join(cs)
    ensures Apart(t, cs) && U32(t, 4) == U32(s, 4) && U32(t, 8) == U32(s, 8) && U32(t, 12) == U32(s, 12)
  {
    hide U32, Classify;
    assert t[..4] == t[..16][..4] && s[..4] == s[..16][..4];
    SameKind(s, t);
    CountsRead(t, |cs|, |Join(cs)|);
    assert t[4..8] == t[..16][4..8] && s[4..8] == s[..16][4..8];
    assert t[8..12] == t[..16][8..12] && s[8..12] == s[..16][8..12];
    assert t[12..16] == t[..16][12..16] && s[12..16] == s[..16][12..16];
    SameField(t, s, 4);
    SameField(t, s, 8);
    SameField(t, s, 12);
  }

  // ── The commands of a signed program ───────────────────────

  lemma {:induction false} SignatureCommandReads(dataoff: nat, datasize: nat)
    requires dataoff < LIMIT32 && datasize < LIMIT32
    ensures var c := SignatureCommand(dataoff, datasize);
      WellSized(c) && U32(c, 0) == LC_CODE_SIGNATURE && U32(c, 8) == dataoff && U32(c, 12) == datasize
  {
    hide LE32, U32;
    var c := SignatureCommand(dataoff, datasize);
    assert c[0..4] == LE32(LC_CODE_SIGNATURE) && c[4..8] == LE32(SIGNATURE_COMMAND);
    assert c[8..12] == LE32(dataoff) && c[12..16] == LE32(datasize);
    Read32(c, 0, LC_CODE_SIGNATURE);
    Read32(c, 4, SIGNATURE_COMMAND);
    Read32(c, 8, dataoff);
    Read32(c, 12, datasize);
  }

  lemma {:induction false} RelinkedWellSized(cs: seq<Buffer>, k: nat, filesize: nat, vmsize: nat, i: nat)
    requires AllWellSized(cs) && k < |cs| && |cs[k]| >= 72 && filesize < LIMIT64 && vmsize < LIMIT64 && i <= |cs|
    ensures AllWellSized(RelinkAt(cs, k, filesize, vmsize)[..i])
  {
    hide U32, Relink;
    if i > 0 {
      RelinkedWellSized(cs, k, filesize, vmsize, i - 1);
      WellSizedPrefix(cs, i - 1);
      var ds := RelinkAt(cs, k, filesize, vmsize);
      Relinked(cs[k], filesize, vmsize);
      assert ds[..i][..i - 1] == ds[..i - 1];
    }
  }

  /** The relinked commands, all of them. */
  lemma {:induction false} RelinkedWhole(cs: seq<Buffer>, k: nat, filesize: nat, vmsize: nat)
    requires AllWellSized(cs) && k < |cs| && |cs[k]| >= 72 && filesize < LIMIT64 && vmsize < LIMIT64
    ensures var ds := RelinkAt(cs, k, filesize, vmsize); AllWellSized(ds) && |Join(ds)| == |Join(cs)|
  {
    hide Relink;
    var ds := RelinkAt(cs, k, filesize, vmsize);
    RelinkedWellSized(cs, k, filesize, vmsize, |cs|);
    assert ds[..|cs|] == ds;
    SamePlaces(cs, ds);
  }

  function SignedCommands(cs: seq<Buffer>, k: nat, filesize: nat, vmsize: nat, dataoff: nat, datasize: nat): seq<Buffer>
    requires k < |cs| && |cs[k]| >= 72 && filesize < LIMIT64 && vmsize < LIMIT64 && dataoff < LIMIT32 && datasize < LIMIT32
  {
    RelinkAt(cs, k, filesize, vmsize) + [SignatureCommand(dataoff, datasize)]
  }

  /** What the commands of a signed program say. */
  ghost predicate SignedFacts(f: Facts, g: Facts, headerEnd: nat, dataoff: nat, datasize: nat, filesize: nat, vmsize: nat) {
    && !g.problem && f.linkedit.Some?
    && g.commands == f.commands + [Command(headerEnd, LC_CODE_SIGNATURE, SIGNATURE_COMMAND)]
    && g.codesig == Some(Signature(headerEnd, dataoff, datasize))
    && g.text == f.text && g.dylibs == f.dylibs
    && g.linkedit == Some(f.linkedit.value.(filesize := filesize, vmsize := vmsize))
  }

  lemma {:induction false} AddedSignature(f: Facts, at: nat, size: nat, headerEnd: nat, dataoff: nat, datasize: nat)
    requires dataoff < LIMIT32 && datasize < LIMIT32 && f.codesig.None? && dataoff + datasize <= size && headerEnd <= dataoff
    ensures Add(f, SignatureCommand(dataoff, datasize), at, size, headerEnd)
         == Some(f.(commands := f.commands + [Command(at, LC_CODE_SIGNATURE, SIGNATURE_COMMAND)],
                    codesig := Some(Signature(at, dataoff, datasize))))
  {
    SignatureCommandReads(dataoff, datasize);
    hide SignatureCommand, U32;
  }

  /** The facts of an unsigned program, with everything a rewrite relies on. */
  ghost predicate Unsigned(cs: seq<Buffer>, k: nat, size: nat, f: Facts) {
    && AllWellSized(cs) && Known(cs, size, PlaceOf(cs)) == Some(f) && !f.problem && f.codesig.None? && f.linkedit.Some?
    && LinksAt(cs, k, size, PlaceOf(cs))
  }

  /** Relinking changes nothing but the sizes of the link-edit segment. */
  lemma {:induction false} RelinkedFacts(cs: seq<Buffer>, k: nat, size: nat, f: Facts, size': nat, headerEnd': nat, filesize: nat, vmsize: nat)
    requires Unsigned(cs, k, size, f) && size <= size' && filesize < LIMIT64 && vmsize < LIMIT64
    requires f.linkedit.value.fileoff + filesize <= size'
    ensures |cs[k]| >= 72
    ensures var ds := RelinkAt(cs, k, filesize, vmsize);
      Known(ds, size', headerEnd').Some? && Alike(f, Known(ds, size', headerEnd').value, filesize, vmsize)
  {
    hide Add, Relink;
    LinkeditCommand(cs, k, size, PlaceOf(cs));
    KnownAlike(cs, k, |cs|, size, PlaceOf(cs), size', headerEnd', filesize, vmsize);
    assert cs[..|cs|] == cs;
    assert RelinkAt(cs, k, filesize, vmsize)[..|cs|] == RelinkAt(cs, k, filesize, vmsize);
  }

  lemma {:induction false} SignedKnown(cs: seq<Buffer>, k: nat, size: nat, f: Facts, dataoff: nat, datasize: nat, filesize: nat, vmsize: nat)
    requires Unsigned(cs, k, size, f) && |cs[k]| >= 72 && size <= dataoff && dataoff + datasize < LIMIT32
    requires PlaceOf(cs) + SIGNATURE_COMMAND <= dataoff && filesize < LIMIT64 && vmsize < LIMIT64
    requires f.linkedit.value.fileoff + filesize <= dataoff + datasize
    ensures var es := SignedCommands(cs, k, filesize, vmsize, dataoff, datasize);
      && AllWellSized(es) && |Join(es)| == |Join(cs)| + SIGNATURE_COMMAND
      && FactsOf(es, dataoff + datasize).Some?
      && SignedFacts(f, FactsOf(es, dataoff + datasize).value, PlaceOf(cs), dataoff, datasize, filesize, vmsize)
  {
    hide Add, Relink, SignatureCommand, WellSized, AllWellSized;
    var ds := RelinkAt(cs, k, filesize, vmsize);
    var es := SignedCommands(cs, k, filesize, vmsize, dataoff, datasize);
    var c := SignatureCommand(dataoff, datasize);
    RelinkedWhole(cs, k, filesize, vmsize);
    JoinSnoc(ds, c);
    WellSizedMore(ds, dataoff, datasize);
    var size', headerEnd' := dataoff + datasize, PlaceOf(es);
    RelinkedFacts(cs, k, size, f, size', headerEnd', filesize, vmsize);
    KnownStep(es, |ds|, size', headerEnd');
    assert es[..|ds|] == ds && es[..|ds| + 1] == es;
    AddedSignature(Known(ds, size', headerEnd').value, PlaceOf(ds), size', headerEnd', dataoff, datasize);
  }

  lemma {:induction false} WellSizedMore(ds: seq<Buffer>, dataoff: nat, datasize: nat)
    requires AllWellSized(ds) && dataoff < LIMIT32 && datasize < LIMIT32
    ensures AllWellSized(ds + [SignatureCommand(dataoff, datasize)])
  {
    hide SignatureCommand, WellSized;
    SignatureCommandReads(dataoff, datasize);
    assert (ds + [SignatureCommand(dataoff, datasize)])[..|ds|] == ds;
  }
}
