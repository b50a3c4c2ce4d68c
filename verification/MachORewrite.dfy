/** What becomes of a program's facts when its link-edit command gets other sizes and a signature command is added. */
module MachORewrite {
  import opened Bytes
  import opened ByteSpan
  import opened MachOLayout

  /** The facts of the first commands of a program of this size whose commands end at `headerEnd`. */
  function Known(cs: seq<Buffer>, size: nat, headerEnd: nat): Option<Facts> {
    Fold(cs, NoFacts(size), ProgramReader(size, headerEnd))
  }

  lemma {:induction false} KnownStep(cs: seq<Buffer>, i: nat, size: nat, headerEnd: nat)
    requires i < |cs|
    ensures var before := Known(cs[..i], size, headerEnd);
      Known(cs[..i + 1], size, headerEnd) ==
        if before.None? then None else Add(before.value, cs[i], PlaceOf(cs[..i]), size, headerEnd)
  {
    hide Add;
    assert cs[..i + 1][..i] == cs[..i];
  }

  // ── One command ────────────────────────────────────────────

  /** What is known only grows. */
  lemma {:induction false} AddGrows(f: Facts, c: Buffer, at: nat, size: nat, headerEnd: nat)
    requires Add(f, c, at, size, headerEnd).Some?
    ensures var g := Add(f, c, at, size, headerEnd).value;
      && |c| >= 8 && g.commands == f.commands + [Command(at, U32(c, 0), |c|)]
      && (f.problem ==> g.problem)
      && (f.codesig.Some? ==> g.codesig == f.codesig)
      && (f.linkedit.Some? ==> g.linkedit == f.linkedit)
      && (f.text.Some? ==> g.text == f.text)
  {
    hide U32, U64, SectionsFrom, FirstNul, StringAt;
  }

  /** The first link-edit segment is the one that is kept. */
  lemma {:induction false} AddLinkedit(f: Facts, c: Buffer, at: nat, size: nat, headerEnd: nat)
    requires Add(f, c, at, size, headerEnd).Some?
    requires f.linkedit.None? && Add(f, c, at, size, headerEnd).value.linkedit.Some?
    ensures |c| >= 72 && U32(c, 0) == LC_SEGMENT_64 && NameOf(c) == LINKEDIT
    ensures Add(f, c, at, size, headerEnd).value.linkedit.value == SegmentOf(c, at)
  {
    hide U32, U64, SectionsFrom, FirstNul, StringAt;
  }

  /** The same facts, but for the sizes of the link-edit segment and where the first content is. */
  ghost predicate Alike(f: Facts, g: Facts, filesize: nat, vmsize: nat) {
    && g.commands == f.commands && g.text == f.text && g.codesig == f.codesig && g.dylibs == f.dylibs && g.problem == f.problem
    && (f.linkedit.Some? <==> g.linkedit.Some?)
    && (f.linkedit.Some? ==> g.linkedit.value == f.linkedit.value.(filesize := filesize, vmsize := vmsize))
  }

  /** A command that is neither the link-edit segment nor a signature says the same in a larger program. */
  lemma {:induction false} AddAlike(f: Facts, g: Facts, c: Buffer, at: nat, size: nat, headerEnd: nat, size': nat, headerEnd': nat,
                                    filesize: nat, vmsize: nat)
    requires Alike(f, g, filesize, vmsize) && size <= size' && Add(f, c, at, size, headerEnd).Some?
    requires var h := Add(f, c, at, size, headerEnd).value; !h.problem && h.codesig.None? && h.linkedit.Some? == f.linkedit.Some?
    ensures Add(g, c, at, size', headerEnd').Some?
    ensures Alike(Add(f, c, at, size, headerEnd).value, Add(g, c, at, size', headerEnd').value, filesize, vmsize)
  {
    hide U32, U64, SectionsFrom, FirstNul, StringAt;
  }

  /** A segment command with other sizes. */
  function Relink(c: Buffer, filesize: nat, vmsize: nat): (r: Buffer)
    requires |c| >= 72 && filesize < LIMIT64 && vmsize < LIMIT64
    ensures |r| == |c|
  {
    Put(Put(c, 48, LE64(filesize)), 32, LE64(vmsize))
  }

  lemma {:induction false} SameField(s: Buffer, t: Buffer, at: nat)
    requires at + 4 <= |s| && at + 4 <= |t| && s[at..at + 4] == t[at..at + 4]
    ensures U32(s, at) == U32(t, at)
  {
    var a, b := s[at..at + 4], t[at..at + 4];
    assert a[0] == b[0] && a[1] == b[1] && a[2] == b[2] && a[3] == b[3];
  }

  lemma {:induction false} SameWide(s: Buffer, t: Buffer, at: nat)
    requires at + 8 <= |s| && at + 8 <= |t| && s[at..at + 8] == t[at..at + 8]
    ensures U64(s, at) == U64(t, at)
  {
    assert s[at..at + 4] == s[at..at + 8][..4] && t[at..at + 4] == t[at..at + 8][..4];
    assert s[at + 4..at + 8] == s[at..at + 8][4..] && t[at + 4..at + 8] == t[at..at + 8][4..];
    SameField(s, t, at);
    SameField(s, t, at + 4);
  }

  lemma {:induction false} SameName(s: Buffer, t: Buffer)
    requires |s| >= 72 && |t| >= 72 && s[..32] == t[..32]
    ensures NameOf(s) == NameOf(t)
  {
    forall i | 0 <= i < 32 ensures s[i] == t[i] { assert s[..32][i] == t[..32][i]; }
    var k := FirstNul(s, 8, 24);
    assert Clear(t, 8, k);
    FirstNulIs(t, 8, 24, k);
    assert s[8..k] == s[..32][8..k] && t[8..k] == t[..32][8..k];
  }

  lemma {:induction false} Relinked(c: Buffer, filesize: nat, vmsize: nat)
    requires |c| >= 72 && filesize < LIMIT64 && vmsize < LIMIT64
    ensures var r := Relink(c, filesize, vmsize);
      && U32(r, 0) == U32(c, 0) && U32(r, 4) == U32(c, 4) && U32(r, 64) == U32(c, 64)
      && forall at :: SegmentOf(r, at) == SegmentOf(c, at).(filesize := filesize, vmsize := vmsize)
  {
    hide U32, U64, LE64;
    var m := Put(c, 48, LE64(filesize));
    var r := Relink(c, filesize, vmsize);
    assert r[..32] == c[..32];
    SameName(r, c);
    assert r[0..4] == c[..32][0..4] && r[4..8] == c[..32][4..8] && c[0..4] == c[..32][0..4] && c[4..8] == c[..32][4..8];
    SameField(r, c, 0);
    SameField(r, c, 4);
    assert r[64..68] == c[64..68];
    SameField(r, c, 64);
    assert r[24..32] == c[24..32];
    SameWide(r, c, 24);
    assert r[40..48] == c[40..48];
    SameWide(r, c, 40);
    PutApart(m, 32, LE64(vmsize), 48, 56);
    Read64(r, 48, filesize);
    Read64(r, 32, vmsize);
  }

  /** The link-edit command with other sizes, where they still end in the program. */
  lemma {:induction false} AddRelinked(f: Facts, g: Facts, c: Buffer, at: nat, size: nat, headerEnd: nat, size': nat, headerEnd': nat,
                                       filesize: nat, vmsize: nat)
    requires Alike(f, g, filesize, vmsize) && Add(f, c, at, size, headerEnd).Some? && filesize < LIMIT64 && vmsize < LIMIT64
    requires var h := Add(f, c, at, size, headerEnd).value; !h.problem && f.linkedit.None? && h.linkedit.Some?
    requires Add(f, c, at, size, headerEnd).value.linkedit.value.fileoff + filesize <= size'
    ensures |c| >= 72
    ensures var r := Relink(c, filesize, vmsize);
      && Add(g, r, at, size', headerEnd').Some?
      && Alike(Add(f, c, at, size, headerEnd).value, Add(g, r, at, size', headerEnd').value, filesize, vmsize)
  {
    AddLinkedit(f, c, at, size, headerEnd);
    Relinked(c, filesize, vmsize);
    hide U32, U64, SectionsFrom, FirstNul, StringAt, Relink, SegmentOf;
    assert SegmentOf(Relink(c, filesize, vmsize), at) == SegmentOf(c, at).(filesize := filesize, vmsize := vmsize);
  }

  // ── All commands ───────────────────────────────────────────

  /** Command k is the one that gives the link-edit segment. */
  ghost predicate LinksAt(cs: seq<Buffer>, k: nat, size: nat, headerEnd: nat) {
    && k < |cs| && Known(cs[..k], size, headerEnd).Some? && Known(cs[..k + 1], size, headerEnd).Some?
    && Known(cs[..k], size, headerEnd).value.linkedit.None? && Known(cs[..k + 1], size, headerEnd).value.linkedit.Some?
  }

  /** What holds of all commands holds of the first ones. */
  lemma {:induction false} KnownBefore(cs: seq<Buffer>, i: nat, size: nat, headerEnd: nat)
    requires i <= |cs| && Known(cs, size, headerEnd).Some?
    ensures var g := Known(cs, size, headerEnd).value;
      && Known(cs[..i], size, headerEnd).Some?
      && var f := Known(cs[..i], size, headerEnd).value;
         (!g.problem ==> !f.problem) && (g.codesig.None? ==> f.codesig.None?) && (f.linkedit.Some? ==> g.linkedit == f.linkedit)
    decreases |cs| - i
  {
    hide Add, Fold;
    if i == |cs| {
      assert cs[..i] == cs;
    } else {
      KnownBefore(cs, i + 1, size, headerEnd);
      KnownStep(cs, i, size, headerEnd);
      AddGrows(Known(cs[..i], size, headerEnd).value, cs[i], PlaceOf(cs[..i]), size, headerEnd);
    }
  }

  lemma {:induction false} FindLinkedit(cs: seq<Buffer>, n: nat, size: nat, headerEnd: nat) returns (k: nat)
    requires n <= |cs| && Known(cs[..n], size, headerEnd).Some? && Known(cs[..n], size, headerEnd).value.linkedit.Some?
    ensures k < n && LinksAt(cs, k, size, headerEnd)
  {
    hide Add;
    KnownStep(cs, n - 1, size, headerEnd);
    k := n - 1;
    if Known(cs[..n - 1], size, headerEnd).value.linkedit.Some? { k := FindLinkedit(cs, n - 1, size, headerEnd); }
  }

  /** The link-edit command and where it stands. */
  lemma {:induction false} LinkeditCommand(cs: seq<Buffer>, k: nat, size: nat, headerEnd: nat)
    requires LinksAt(cs, k, size, headerEnd) && Known(cs, size, headerEnd).Some?
    ensures |cs[k]| >= 72 && Known(cs, size, headerEnd).value.linkedit == Some(SegmentOf(cs[k], PlaceOf(cs[..k])))
  {
    hide Add, Fold, SegmentOf;
    KnownStep(cs, k, size, headerEnd);
    AddLinkedit(Known(cs[..k], size, headerEnd).value, cs[k], PlaceOf(cs[..k]), size, headerEnd);
    KnownBefore(cs, k + 1, size, headerEnd);
  }

  /** The commands with command k relinked. */
  function RelinkAt(cs: seq<Buffer>, k: nat, filesize: nat, vmsize: nat): (r: seq<Buffer>)
    requires k < |cs| && |cs[k]| >= 72 && filesize < LIMIT64 && vmsize < LIMIT64
    ensures |r| == |cs|
  {
    cs[k := Relink(cs[k], filesize, vmsize)]
  }

  /** Commands of the same lengths stand at the same places. */
  lemma {:induction false} SamePlaces(cs: seq<Buffer>, ds: seq<Buffer>)
    requires |cs| == |ds| && forall i :: 0 <= i < |cs| ==> |cs[i]| == |ds[i]|
    ensures |Join(cs)| == |Join(ds)|
  {
    if cs != [] { SamePlaces(cs[..|cs| - 1], ds[..|ds| - 1]); }
  }

  lemma {:induction false} RelinkedPlace(cs: seq<Buffer>, k: nat, filesize: nat, vmsize: nat, i: nat)
    requires k < |cs| && |cs[k]| >= 72 && filesize < LIMIT64 && vmsize < LIMIT64 && i <= |cs|
    ensures PlaceOf(RelinkAt(cs, k, filesize, vmsize)[..i]) == PlaceOf(cs[..i])
  {
    hide Relink;
    SamePlaces(cs[..i], RelinkAt(cs, k, filesize, vmsize)[..i]);
  }

  /** The first i commands of the relinked program say the same. */
  lemma {:induction false} KnownAlike(cs: seq<Buffer>, k: nat, i: nat, size: nat, headerEnd: nat, size': nat, headerEnd': nat,
                                      filesize: nat, vmsize: nat)
    requires LinksAt(cs, k, size, headerEnd) && Known(cs, size, headerEnd).Some? && i <= |cs| && size <= size'
    requires |cs[k]| >= 72 && filesize < LIMIT64 && vmsize < LIMIT64
    requires var f := Known(cs, size, headerEnd).value;
      !f.problem && f.codesig.None? && f.linkedit.Some? && f.linkedit.value.fileoff + filesize <= size'
    ensures var ds := RelinkAt(cs, k, filesize, vmsize);
      && Known(cs[..i], size, headerEnd).Some? && Known(ds[..i], size', headerEnd').Some?
      && Alike(Known(cs[..i], size, headerEnd).value, Known(ds[..i], size', headerEnd').value, filesize, vmsize)
    decreases i, 0
  {
    hide Add, Relink;
    if i > 0 {
      KnownAlikeStep(cs, k, i - 1, size, headerEnd, size', headerEnd', filesize, vmsize);
    }
  }

  lemma {:induction false} KnownAlikeStep(cs: seq<Buffer>, k: nat, i: nat, size: nat, headerEnd: nat, size': nat, headerEnd': nat,
                                          filesize: nat, vmsize: nat)
    requires LinksAt(cs, k, size, headerEnd) && Known(cs, size, headerEnd).Some? && i < |cs| && size <= size'
    requires |cs[k]| >= 72 && filesize < LIMIT64 && vmsize < LIMIT64
    requires var f := Known(cs, size, headerEnd).value;
      !f.problem && f.codesig.None? && f.linkedit.Some? && f.linkedit.value.fileoff + filesize <= size'
    ensures var ds := RelinkAt(cs, k, filesize, vmsize);
      && Known(cs[..i + 1], size, headerEnd).Some? && Known(ds[..i + 1], size', headerEnd').Some?
      && Alike(Known(cs[..i + 1], size, headerEnd).value, Known(ds[..i + 1], size', headerEnd').value, filesize, vmsize)
    decreases i, 1
  {
    hide Add, Fold, Relink, SegmentOf;
    var ds := RelinkAt(cs, k, filesize, vmsize);
    KnownAlike(cs, k, i, size, headerEnd, size', headerEnd', filesize, vmsize);
    KnownStep(cs, i, size, headerEnd);
    KnownStep(ds, i, size', headerEnd');
    RelinkedPlace(cs, k, filesize, vmsize, i);
    KnownBefore(cs, i + 1, size, headerEnd);
    var f, g, at := Known(cs[..i], size, headerEnd).value, Known(ds[..i], size', headerEnd').value, PlaceOf(cs[..i]);
    if i == k {
      KnownBefore(cs, k + 1, size, headerEnd);
      AddRelinked(f, g, cs[k], at, size, headerEnd, size', headerEnd', filesize, vmsize);
    } else {
      OnlyOnce(cs, k, i, size, headerEnd);
      AddAlike(f, g, cs[i], at, size, headerEnd, size', headerEnd', filesize, vmsize);
    }
  }

  /** Only command k brings the link-edit segment in. */
  lemma {:induction false} OnlyOnce(cs: seq<Buffer>, k: nat, i: nat, size: nat, headerEnd: nat)
    requires LinksAt(cs, k, size, headerEnd) && Known(cs, size, headerEnd).Some? && i < |cs| && i != k
    ensures Known(cs[..i], size, headerEnd).Some? && Known(cs[..i + 1], size, headerEnd).Some?
    ensures Known(cs[..i + 1], size, headerEnd).value.linkedit.Some? == Known(cs[..i], size, headerEnd).value.linkedit.Some?
  {
    hide Add, Fold;
    KnownBefore(cs, i, size, headerEnd);
    KnownBefore(cs, i + 1, size, headerEnd);
    if i < k {
      KnownBefore(cs[..k], i + 1, size, headerEnd);
      KnownBefore(cs[..k], i, size, headerEnd);
      assert cs[..k][..i + 1] == cs[..i + 1] && cs[..k][..i] == cs[..i];
    } else {
      KnownBefore(cs[..i], k + 1, size, headerEnd);
      assert cs[..i][..k + 1] == cs[..k + 1];
      KnownBefore(cs[..i + 1], i, size, headerEnd);
      assert cs[..i + 1][..i] == cs[..i];
    }
  }
}
