/** Authenticode signatures in PE files: the headers, the certificate table, what is hashed, and
    embedding, extracting and stripping a signature. */
module PeSigner {
  import opened Bytes
  import opened PeChecksum

  const UINT32_MAX := 0xFFFF_FFFF

  datatype Layout = Layout(pe: nat, plus: bool)
  {
    function Optional(): nat { pe + 24 }
    function CheckSumAt(): nat { pe + 88 }
    function Directory(): nat { pe + 24 + (if plus then 144 else 128) }
    function HeadersEnd(): nat { Directory() + 8 }
    function CountAt(): nat { pe + 24 + (if plus then 108 else 92) }
  }

  /** Where the fields that signing reads and writes lie, or a rejection. */
  function ParsePeLayout(s: Buffer): (r: Option<Layout>)
    ensures r.Some? ==> r.value.HeadersEnd() <= |s|
  {
    if |s| < 64 || U16(s, 0) != 0x5A4D || U32(s, 60) >= 0x8000_0000 then None
    else
      var pe := U32(s, 60);
      if !RangeFits(pe, 26, |s|) || U32(s, pe) != 0x4550 || (U16(s, pe + 24) != 0x10B && U16(s, pe + 24) != 0x20B) then None
      else
        var l := Layout(pe, U16(s, pe + 24) == 0x20B);
        if !RangeFits(l.CountAt(), 4, |s|) || U32(s, l.CountAt()) < 5 then None
        else if !RangeFits(l.CheckSumAt(), 4, |s|) || !RangeFits(l.Directory(), 8, |s|) then None
        else Some(l)
  }

  datatype Table = Table(present: bool, address: nat, size: nat, length: nat)

  /** The certificate table, checked before anything relies on it. A zero in either field says there is none. */
  function ValidateCertificateTable(s: Buffer, l: Layout): (r: Option<Table>)
    requires l.HeadersEnd() <= |s|
    ensures r.Some? && r.value.present ==>
      l.HeadersEnd() <= r.value.address && r.value.address + r.value.size <= |s| && 8 <= r.value.length <= r.value.size
  {
    var address, size := U32(s, l.Directory()), U32(s, l.Directory() + 4);
    if address == 0 || size == 0 then Some(Table(false, address, size, 0))
    else if !RangeFits(address, size, |s|) || address < l.HeadersEnd() || size < 8 then None
    else
      var length := U32(s, address);
      if length < 8 || length > size || U16(s, address + 4) != 0x0200 || U16(s, address + 6) != 0x0002 then None
      else Some(Table(true, address, size, length))
  }

  /** Zeros needed to reach a multiple of 8. */
  function Pad8(n: nat): (p: nat)
    ensures p < 8 && (n + p) % 8 == 0
  {
    (8 - n % 8) % 8
  }

  /** Where the certificate table of a file goes whose own bytes end at `kept`. */
  function CertAt(kept: nat): nat {
    kept + Pad8(kept)
  }

  function Padding(kept: nat): (p: Buffer)
    ensures |p| == CertAt(kept) - kept && p == Zeros(|p|)
  {
    Zeros(Pad8(kept))
  }

  // ── Operations ─────────────────────────────────────────────

  /** Where the program's own bytes end. */
  function KeptSize(s: Buffer, t: Table): nat {
    if t.present then t.address else |s|
  }

  /** The bytes fed to the hash: everything before the table but the checksum and the directory entry;
      an unsigned file is padded as embedding would pad it. */
  function DigestInput(s: Buffer): Option<Buffer> {
    var l :- ParsePeLayout(s);
    var t :- ValidateCertificateTable(s, l);
    Some(Hashed(s, l, KeptSize(s, t)) + if t.present then [] else Zeros(Pad8(|s|)))
  }

  function Hashed(s: Buffer, l: Layout, end: nat): Buffer
    requires l.HeadersEnd() <= end <= |s|
  {
    s[..l.CheckSumAt()] + s[l.CheckSumAt() + 4..l.Directory()] + s[l.HeadersEnd()..end]
  }

  /** The ranges as the code walks them: exclusions in file order, then the rest. */
  method FeedDigest(s: Buffer, l: Layout, t: Table) returns (fed: Buffer)
    requires l.HeadersEnd() <= KeptSize(s, t) <= |s|
    ensures fed == Hashed(s, l, KeptSize(s, t)) + if t.present then [] else Zeros(Pad8(|s|))
  {
    var exclusions := [(l.CheckSumAt(), l.CheckSumAt() + 4), (l.Directory(), l.Directory() + 8)];
    var pos: nat := 0;
    fed := [];
    for i := 0 to 2
      invariant pos == if i == 0 then 0 else if i == 1 then l.CheckSumAt() + 4 else l.HeadersEnd()
      invariant fed == if i == 0 then [] else if i == 1 then s[..l.CheckSumAt()]
                       else s[..l.CheckSumAt()] + s[l.CheckSumAt() + 4..l.Directory()]
    {
      var e := exclusions[i];
      if e.0 > pos { fed := fed + s[pos..e.0]; }
      pos := e.1;
    }
    if pos < KeptSize(s, t) { fed := fed + s[pos..KeptSize(s, t)]; }
    if !t.present { fed := fed + Zeros(Pad8(|s|)); }
  }

  function Certificate(blob: Buffer): (c: Buffer)
    requires |blob| <= UINT32_MAX - 8
    ensures |c| == 8 + |blob| + Pad8(8 + |blob|)
  {
    LE32(8 + |blob|) + LE16(0x0200) + LE16(0x0002) + blob + Zeros(Pad8(8 + |blob|))
  }

  /** The pieces joined, the directory entry written, the checksum recalculated. */
  function Assembled(s: Buffer, l: Layout, kept: nat, pad: Buffer, certificate: Buffer, entry: Buffer): Buffer
    requires l.HeadersEnd() <= kept <= |s| && |entry| == 8
  {
    Recalc(Put(s[..kept] + pad + certificate, l.Directory(), entry), l.CheckSumAt())
  }

  /** The pieces for a file whose own bytes end at `kept`; offsets and sizes must fit in 32 bits. */
  function Attach(s: Buffer, l: Layout, kept: nat, blob: Buffer): Option<Buffer>
    requires l.HeadersEnd() <= kept <= |s|
  {
    if |blob| > UINT32_MAX - 8 then None
    else
      if CertAt(kept) > UINT32_MAX || |Certificate(blob)| > UINT32_MAX then None
      else Some(Assembled(s, l, kept, Padding(kept), Certificate(blob), DirectoryEntry(CertAt(kept), |Certificate(blob)|)))
  }

  function EmbedSignature(s: Buffer, blob: Buffer): Option<Buffer> {
    var l :- ParsePeLayout(s);
    var t :- ValidateCertificateTable(s, l);
    Attach(s, l, KeptSize(s, t), blob)
  }

  /** None is a rejection; Some(None) an unsigned file. */
  function ExtractSignature(s: Buffer): Option<Option<Buffer>> {
    var l :- ParsePeLayout(s);
    var t :- ValidateCertificateTable(s, l);
    Some(if t.present then Some(s[t.address + 8..t.address + t.length]) else None)
  }

  /** The end of the raw data of the section described at `entry`; nothing if it has none. */
  function RawEnd(s: Buffer, entry: nat): nat
    requires entry + 40 <= |s|
  {
    if U32(s, entry + 16) == 0 then 0 else U32(s, entry + 20) + U32(s, entry + 16)
  }

  /** The largest of `floor` and the raw-data ends of the first i sections, those whose entries the file cuts
      off left aside. */
  function FloorTo(s: Buffer, start: nat, i: nat, floor: nat): nat {
    if i == 0 then floor
    else
      var before := FloorTo(s, start, i - 1, floor);
      var entry := start + (i - 1) * 40;
      if entry + 40 > |s| then before
      else if RawEnd(s, entry) > before then RawEnd(s, entry) else before
  }

  function SectionTable(s: Buffer, l: Layout): nat
    requires l.HeadersEnd() <= |s|
  {
    l.Optional() + U16(s, l.pe + 20)
  }

  function SectionCount(s: Buffer, l: Layout): nat
    requires l.HeadersEnd() <= |s|
  {
    U16(s, l.pe + 6)
  }

  function SizeOfHeaders(s: Buffer, l: Layout): nat
    requires l.HeadersEnd() <= |s|
  {
    U32(s, l.Optional() + 60)
  }

  function StripFloor(s: Buffer, l: Layout): nat
    requires l.HeadersEnd() <= |s|
  {
    FloorTo(s, SectionTable(s, l), SectionCount(s, l), SizeOfHeaders(s, l))
  }

  /** Past the end of the file every further entry is past it too. */
  lemma {:induction false} FloorStops(s: Buffer, start: nat, i: nat, j: nat, floor: nat)
    requires i <= j && start + i * 40 + 40 > |s|
    ensures FloorTo(s, start, j, floor) == FloorTo(s, start, i, floor)
    decreases j - i
  {
    if i < j { FloorStops(s, start, i, j - 1, floor); }
  }

  method ComputeStripFloor(s: Buffer, l: Layout) returns (floor: nat)
    requires l.HeadersEnd() <= |s|
    ensures floor == StripFloor(s, l)
  {
    hide SizeOfHeaders, SectionCount, SectionTable, RawEnd, U32, U16;
    ghost var base := SizeOfHeaders(s, l);
    floor := SizeOfHeaders(s, l);
    var count, start := SectionCount(s, l), SectionTable(s, l);
    for i := 0 to count
      invariant floor == FloorTo(s, start, i, base)
    {
      var entry := start + i * 40;
      if entry + 40 > |s| {
        FloorStops(s, start, i, count, base);
        return;
      }
      var end := RawEnd(s, entry);
      if end > floor {
        floor := end;
      }
    }
  }

  /** At most `left` zero bytes cut off the end, never below the floor. */
  function Trimmed(s: Buffer, size: nat, floor: nat, left: nat): (n: nat)
    requires size <= |s|
    ensures n <= size
    decreases left
  {
    if left > 0 && size > floor && s[size - 1] == 0 then Trimmed(s, size - 1, floor, left - 1) else size
  }

  method TrimPadding(s: Buffer, size: nat, floor: nat) returns (n: nat)
    requires size <= |s|
    ensures n == Trimmed(s, size, floor, 7)
  {
    n := size;
    var removed: nat := 0;
    while removed < 7 && n > floor && s[n - 1] == 0
      invariant removed <= 7 && n <= size && Trimmed(s, size, floor, 7) == Trimmed(s, n, floor, 7 - removed)
      decreases 7 - removed
    {
      n, removed := n - 1, removed + 1;
    }
  }

  /** An unsigned file is left alone. A file cut back into its own headers is refused. */
  function StripSignature(s: Buffer): Option<Buffer> {
    var l :- ParsePeLayout(s);
    var t :- ValidateCertificateTable(s, l);
    if !t.present then Some(s)
    else
      var n := Trimmed(s, t.address, StripFloor(s, l), 7);
      if l.HeadersEnd() > n then None
      else Some(Recalc(Put(s[..n], l.Directory(), Zeros(8)), l.CheckSumAt()))
  }

  // ── Headers survive ────────────────────────────────────────

  /** Two files with the same headers outside the checksum and the directory entry. */
  ghost predicate SameHeaders(s: Buffer, t: Buffer, l: Layout) {
    && l.HeadersEnd() <= |s| && l.HeadersEnd() <= |t|
    && s[..l.CheckSumAt()] == t[..l.CheckSumAt()] && s[l.CheckSumAt() + 4..l.Directory()] == t[l.CheckSumAt() + 4..l.Directory()]
  }

  lemma {:induction false} Same16(s: Buffer, t: Buffer, lo: nat, hi: nat, at: nat)
    requires lo <= at && at + 2 <= hi <= |s| && hi <= |t| && s[lo..hi] == t[lo..hi]
    ensures U16(s, at) == U16(t, at)
  {
    assert s[at] == s[lo..hi][at - lo] == t[at] && s[at + 1] == s[lo..hi][at + 1 - lo] == t[at + 1];
  }

  lemma {:induction false} Same32(s: Buffer, t: Buffer, lo: nat, hi: nat, at: nat)
    requires lo <= at && at + 4 <= hi <= |s| && hi <= |t| && s[lo..hi] == t[lo..hi]
    ensures U32(s, at) == U32(t, at)
  {
    assert s[at] == s[lo..hi][at - lo] == t[at] && s[at + 1] == s[lo..hi][at + 1 - lo] == t[at + 1];
    assert s[at + 2] == s[lo..hi][at + 2 - lo] == t[at + 2] && s[at + 3] == s[lo..hi][at + 3 - lo] == t[at + 3];
  }

  lemma {:induction false} LayoutKept(s: Buffer, t: Buffer, l: Layout)
    requires ParsePeLayout(s) == Some(l) && SameHeaders(s, t, l)
    ensures ParsePeLayout(t) == Some(l)
  {
    var c, d := l.CheckSumAt(), l.Directory();
    Same16(s, t, 0, c, 0);
    Same32(s, t, 0, c, 60);
    Same32(s, t, 0, c, l.pe);
    Same16(s, t, 0, c, l.pe + 24);
    Same32(s, t, c + 4, d, l.CountAt());
  }

  /** A file that keeps the headers and the first bytes of `s`, then holds `pad` and `certificate`, with
      `entry` as its directory entry. */
  ghost predicate SignedAs(t: Buffer, s: Buffer, l: Layout, kept: nat, at: nat, pad: Buffer, certificate: Buffer, entry: Buffer) {
    && l.HeadersEnd() <= kept <= |s| && at == kept + |pad| && |t| == at + |certificate| && |entry| == 8
    && SameHeaders(s, t, l) && t[l.HeadersEnd()..kept] == s[l.HeadersEnd()..kept]
    && t[kept..at] == pad && t[at..] == certificate && t[l.Directory()..l.Directory() + 8] == entry
  }

  lemma {:induction false} Prefix(b: Buffer, s: Buffer, kept: nat, lo: nat, hi: nat)
    requires lo <= hi <= kept <= |s| && kept <= |b| && b[..kept] == s[..kept]
    ensures b[lo..hi] == s[lo..hi]
  {
    SliceSlice(b, 0, kept, lo, hi);
    SliceSlice(s, 0, kept, lo, hi);
    assert b[0..kept] == b[..kept] && s[0..kept] == s[..kept];
  }

  lemma {:induction false} SignedHeaders(s: Buffer, b: Buffer, t: Buffer, l: Layout, kept: nat)
    requires l.HeadersEnd() <= kept <= |s| && kept <= |b| == |t| && b[..kept] == s[..kept]
    requires t[0..l.CheckSumAt()] == b[0..l.CheckSumAt()]
    requires t[l.CheckSumAt() + 4..l.Directory()] == b[l.CheckSumAt() + 4..l.Directory()]
    requires t[l.HeadersEnd()..kept] == b[l.HeadersEnd()..kept]
    ensures SameHeaders(s, t, l) && t[l.HeadersEnd()..kept] == s[l.HeadersEnd()..kept]
  {
    Prefix(b, s, kept, 0, l.CheckSumAt());
    Prefix(b, s, kept, l.CheckSumAt() + 4, l.Directory());
    Prefix(b, s, kept, l.HeadersEnd(), kept);
    assert t[..l.CheckSumAt()] == t[0..l.CheckSumAt()] && s[..l.CheckSumAt()] == s[0..l.CheckSumAt()];
  }

  /** Two header writes leave the rest of the file alone. */
  lemma {:induction false} WritesApart(b: Buffer, l: Layout, entry: Buffer, field: Buffer, lo: nat, hi: nat)
    requires l.HeadersEnd() <= |b| && |entry| == 8 && |field| == 4 && lo <= hi <= |b|
    requires hi <= l.CheckSumAt() || (l.CheckSumAt() + 4 <= lo && hi <= l.Directory()) || l.HeadersEnd() <= lo
    ensures Put(Put(b, l.Directory(), entry), l.CheckSumAt(), field)[lo..hi] == b[lo..hi]
  {
    PutApart(Put(b, l.Directory(), entry), l.CheckSumAt(), field, lo, hi);
    PutApart(b, l.Directory(), entry, lo, hi);
  }

  lemma {:induction false} WrittenAs(s: Buffer, l: Layout, kept: nat, at: nat, pad: Buffer, certificate: Buffer, entry: Buffer, field: Buffer)
    requires l.HeadersEnd() <= kept <= |s| && at == kept + |pad| && |entry| == 8 && |field| == 4
    ensures SignedAs(Put(Put(s[..kept] + pad + certificate, l.Directory(), entry), l.CheckSumAt(), field), s, l, kept, at, pad, certificate, entry)
  {
    var b := s[..kept] + pad + certificate;
    var t := Put(Put(b, l.Directory(), entry), l.CheckSumAt(), field);
    assert b[..kept] == s[..kept] && b[kept..at] == pad && b[at..|b|] == certificate;
    WritesApart(b, l, entry, field, 0, l.CheckSumAt());
    WritesApart(b, l, entry, field, l.CheckSumAt() + 4, l.Directory());
    WritesApart(b, l, entry, field, l.HeadersEnd(), kept);
    WritesApart(b, l, entry, field, kept, at);
    WritesApart(b, l, entry, field, at, |b|);
    SignedHeaders(s, b, t, l, kept);
    PutApart(Put(b, l.Directory(), entry), l.CheckSumAt(), field, l.Directory(), l.HeadersEnd());
    assert t[at..] == t[at..|b|];
  }

  function DirectoryEntry(at: nat, size: nat): (e: Buffer)
    requires at <= UINT32_MAX && size <= UINT32_MAX
    ensures |e| == 8
  {
    LE32(at) + LE32(size)
  }

  lemma {:induction false} AssembledAs(s: Buffer, l: Layout, kept: nat, at: nat, pad: Buffer, certificate: Buffer, entry: Buffer)
    requires l.HeadersEnd() <= kept <= |s| && at == kept + |pad| && |entry| == 8
    ensures SignedAs(Assembled(s, l, kept, pad, certificate, entry), s, l, kept, at, pad, certificate, entry)
  {
    var field := RecalcIsPut(Put(s[..kept] + pad + certificate, l.Directory(), entry), l.CheckSumAt());
    WrittenAs(s, l, kept, at, pad, certificate, entry, field);
  }

  // ── Reading a signed file ──────────────────────────────────

  lemma {:induction false} EntryReads(t: Buffer, at: nat, address: nat, size: nat)
    requires address <= UINT32_MAX && size <= UINT32_MAX && at + 8 <= |t| && t[at..at + 8] == DirectoryEntry(address, size)
    ensures U32(t, at) == address && U32(t, at + 4) == size
  {
    var e := DirectoryEntry(address, size);
    assert e[0..4] == LE32(address) && e[4..8] == LE32(size);
    SliceSlice(t, at, at + 8, 0, 4);
    SliceSlice(t, at, at + 8, 4, 8);
    Read32(t, at, address);
    Read32(t, at + 4, size);
  }

  lemma {:induction false} CertificateReads(t: Buffer, at: nat, blob: Buffer)
    requires |blob| <= UINT32_MAX - 8 && at <= |t| && t[at..] == Certificate(blob)
    ensures at + 8 + |blob| <= |t| && U32(t, at) == 8 + |blob| && U16(t, at + 4) == 0x0200 && U16(t, at + 6) == 0x0002
    ensures t[at + 8..at + 8 + |blob|] == blob
  {
    var c := Certificate(blob);
    assert c[0..4] == LE32(8 + |blob|) && c[4..6] == LE16(0x0200) && c[6..8] == LE16(0x0002) && c[8..8 + |blob|] == blob;
    assert t[at..|t|] == t[at..];
    SliceSlice(t, at, |t|, 0, 4);
    SliceSlice(t, at, |t|, 4, 6);
    SliceSlice(t, at, |t|, 6, 8);
    SliceSlice(t, at, |t|, 8, 8 + |blob|);
    Read32(t, at, 8 + |blob|);
    Read16(t, at + 4, 0x0200);
    Read16(t, at + 6, 0x0002);
  }

  /** A file signed with `blob` at `at`, in terms of what is read from it. */
  ghost predicate SignedForm(t: Buffer, s: Buffer, l: Layout, kept: nat, at: nat, size: nat, blob: Buffer) {
    && l.HeadersEnd() <= kept <= |s| && kept <= at && 8 + |blob| <= size && |t| == at + size
    && SameHeaders(s, t, l) && t[l.HeadersEnd()..kept] == s[l.HeadersEnd()..kept] && t[kept..at] == Zeros(at - kept)
    && U32(t, l.Directory()) == at && U32(t, l.Directory() + 4) == size
    && U32(t, at) == 8 + |blob| && U16(t, at + 4) == 0x0200 && U16(t, at + 6) == 0x0002
    && t[at + 8..at + 8 + |blob|] == blob
  }

  lemma {:induction false} FormOf(t: Buffer, s: Buffer, l: Layout, kept: nat, at: nat, size: nat, pad: Buffer, certificate: Buffer, entry: Buffer, blob: Buffer)
    requires SignedAs(t, s, l, kept, at, pad, certificate, entry) && pad == Zeros(|pad|) && size == |certificate|
    requires at <= UINT32_MAX && size <= UINT32_MAX && entry == DirectoryEntry(at, size)
    requires |blob| <= UINT32_MAX - 8 && certificate == Certificate(blob)
    ensures SignedForm(t, s, l, kept, at, size, blob)
  {
    EntryReads(t, l.Directory(), at, size);
    CertificateReads(t, at, blob);
  }

  lemma {:induction false} AssembledForm(s: Buffer, l: Layout, kept: nat, at: nat, size: nat, pad: Buffer, certificate: Buffer, entry: Buffer, blob: Buffer)
    requires l.HeadersEnd() <= kept <= |s| && at == kept + |pad| && pad == Zeros(|pad|) && size == |certificate|
    requires at <= UINT32_MAX && size <= UINT32_MAX && entry == DirectoryEntry(at, size)
    requires |blob| <= UINT32_MAX - 8 && certificate == Certificate(blob)
    ensures SignedForm(Assembled(s, l, kept, pad, certificate, entry), s, l, kept, at, size, blob)
  {
    AssembledAs(s, l, kept, at, pad, certificate, entry);
    FormOf(Assembled(s, l, kept, pad, certificate, entry), s, l, kept, at, size, pad, certificate, entry, blob);
  }

  /** The table of a signed file. */
  lemma {:induction false} FormTable(t: Buffer, s: Buffer, l: Layout, kept: nat, at: nat, size: nat, blob: Buffer)
    requires ParsePeLayout(s) == Some(l) && SignedForm(t, s, l, kept, at, size, blob)
    ensures ParsePeLayout(t) == Some(l) && ValidateCertificateTable(t, l) == Some(Table(true, at, size, 8 + |blob|))
  {
    LayoutKept(s, t, l);
  }

  /** What is attached is read back. */
  lemma {:induction false} AttachForm(s: Buffer, l: Layout, kept: nat, blob: Buffer)
    requires l.HeadersEnd() <= kept <= |s| && Attach(s, l, kept, blob).Some?
    ensures |blob| <= UINT32_MAX - 8
    ensures SignedForm(Attach(s, l, kept, blob).value, s, l, kept, CertAt(kept), |Certificate(blob)|, blob)
  {
    AssembledForm(s, l, kept, CertAt(kept), |Certificate(blob)|, Padding(kept), Certificate(blob),
                  DirectoryEntry(CertAt(kept), |Certificate(blob)|), blob);
  }

  /** The layout of a file that can be signed, and where its own bytes end. */
  lemma {:induction false} Embedding(s: Buffer, blob: Buffer) returns (l: Layout, kept: nat)
    requires EmbedSignature(s, blob).Some?
    ensures ParsePeLayout(s) == Some(l) && ValidateCertificateTable(s, l).Some? && kept == KeptSize(s, ValidateCertificateTable(s, l).value)
    ensures l.HeadersEnd() <= kept <= |s| && EmbedSignature(s, blob) == Attach(s, l, kept, blob)
  {
    l := ParsePeLayout(s).value;
    kept := KeptSize(s, ValidateCertificateTable(s, l).value);
  }

  lemma {:induction false} EmbeddedForm(s: Buffer, blob: Buffer) returns (l: Layout, kept: nat, size: nat)
    requires EmbedSignature(s, blob).Some?
    ensures ParsePeLayout(s) == Some(l) && ValidateCertificateTable(s, l).Some? && kept == KeptSize(s, ValidateCertificateTable(s, l).value)
    ensures var t := EmbedSignature(s, blob).value;
      && SignedForm(t, s, l, kept, CertAt(kept), size, blob)
      && ParsePeLayout(t) == Some(l) && ValidateCertificateTable(t, l) == Some(Table(true, CertAt(kept), size, 8 + |blob|))
  {
    l, kept := Embedding(s, blob);
    AttachForm(s, l, kept, blob);
    size := |Certificate(blob)|;
    FormTable(Attach(s, l, kept, blob).value, s, l, kept, CertAt(kept), size, blob);
  }

  lemma {:induction false} ExtractFrom(t: Buffer, s: Buffer, l: Layout, kept: nat, at: nat, size: nat, blob: Buffer)
    requires SignedForm(t, s, l, kept, at, size, blob)
    requires ParsePeLayout(t) == Some(l) && ValidateCertificateTable(t, l) == Some(Table(true, at, size, 8 + |blob|))
    ensures ExtractSignature(t) == Some(Some(blob))
  {
  }

  /** What was embedded is extracted. */
  lemma {:induction false} ExtractEmbedded(s: Buffer, blob: Buffer)
    requires EmbedSignature(s, blob).Some?
    ensures ExtractSignature(EmbedSignature(s, blob).value) == Some(Some(blob))
  {
    var l, kept, size := EmbeddedForm(s, blob);
    ExtractFrom(EmbedSignature(s, blob).value, s, l, kept, CertAt(kept), size, blob);
  }

  // ── Embedding twice ────────────────────────────────────────

  /** Writing the same fields over files that differ only there gives the same file. */
  lemma {:induction false} AssembledAgain(s: Buffer, t: Buffer, l: Layout, kept: nat, at: nat, pad: Buffer, certificate: Buffer, entry: Buffer)
    requires l.HeadersEnd() <= kept <= |s| && at == kept + |pad| && at <= |t| && |entry| == 8
    requires SameHeaders(s, t, l) && t[l.HeadersEnd()..kept] == s[l.HeadersEnd()..kept] && t[kept..at] == pad
    ensures Assembled(t, l, at, [], certificate, entry) == Assembled(s, l, kept, pad, certificate, entry)
  {
    var a, b := s[..kept] + pad + certificate, t[..at] + [] + certificate;
    var ea, eb := Put(a, l.Directory(), entry), Put(b, l.Directory(), entry);
    var c := l.CheckSumAt();
    assert Put(ea, c, Zeros(4)) == Put(eb, c, Zeros(4)) by {
      FieldsOverwritten(s, t, l, kept, at, pad, certificate, entry);
    }
    OldFieldIgnored(ea, c, Zeros(4));
    OldFieldIgnored(eb, c, Zeros(4));
  }

  lemma {:induction false} FieldsOverwritten(s: Buffer, t: Buffer, l: Layout, kept: nat, at: nat, pad: Buffer, certificate: Buffer, entry: Buffer)
    requires l.HeadersEnd() <= kept <= |s| && at == kept + |pad| && at <= |t| && |entry| == 8
    requires SameHeaders(s, t, l) && t[l.HeadersEnd()..kept] == s[l.HeadersEnd()..kept] && t[kept..at] == pad
    ensures Put(Put(s[..kept] + pad + certificate, l.Directory(), entry), l.CheckSumAt(), Zeros(4))
         == Put(Put(t[..at] + [] + certificate, l.Directory(), entry), l.CheckSumAt(), Zeros(4))
  {
    var a, b := s[..kept] + pad + certificate, t[..at] + [] + certificate;
    forall i | 0 <= i < |a| && !(l.CheckSumAt() <= i < l.CheckSumAt() + 4) && !(l.Directory() <= i < l.HeadersEnd()) ensures a[i] == b[i] {
      if i < l.CheckSumAt() { assert s[i] == s[..l.CheckSumAt()][i] == t[i]; }
      else if i < l.Directory() {
        var lo := l.CheckSumAt() + 4;
        assert s[i] == s[lo..l.Directory()][i - lo] == t[i];
      } else if i < kept { assert s[i] == s[l.HeadersEnd()..kept][i - l.HeadersEnd()] == t[i]; }
      else if i < at { assert pad[i - kept] == t[kept..at][i - kept] == t[i]; }
    }
    BothPut(a, b, l, entry);
  }

  lemma {:induction false} BothPut(a: Buffer, b: Buffer, l: Layout, entry: Buffer)
    requires |a| == |b| && l.HeadersEnd() <= |a| && |entry| == 8
    requires forall i :: 0 <= i < |a| && !(l.CheckSumAt() <= i < l.CheckSumAt() + 4) && !(l.Directory() <= i < l.HeadersEnd()) ==> a[i] == b[i]
    ensures Put(Put(a, l.Directory(), entry), l.CheckSumAt(), Zeros(4)) == Put(Put(b, l.Directory(), entry), l.CheckSumAt(), Zeros(4))
  {
    var d, c := l.Directory(), l.CheckSumAt();
    var x, y := Put(Put(a, d, entry), c, Zeros(4)), Put(Put(b, d, entry), c, Zeros(4));
    forall i | 0 <= i < |x| ensures x[i] == y[i] {
      if c <= i < c + 4 {
        assert x[i] == x[c..c + 4][i - c] && y[i] == y[c..c + 4][i - c];
      } else if d <= i < d + 8 {
        assert x[i] == Put(a, d, entry)[i] == Put(a, d, entry)[d..d + 8][i - d];
        assert y[i] == Put(b, d, entry)[i] == Put(b, d, entry)[d..d + 8][i - d];
      }
    }
  }

  lemma {:induction false} CertAtAligned(kept: nat)
    ensures CertAt(CertAt(kept)) == CertAt(kept) && Padding(CertAt(kept)) == []
  {
  }

  /** Embedding a second signature gives what embedding only that one gives. */
  lemma {:induction false} LastEmbeddingWins(s: Buffer, first: Buffer, second: Buffer)
    requires EmbedSignature(s, first).Some?
    ensures EmbedSignature(EmbedSignature(s, first).value, second) == EmbedSignature(s, second)
  {
    var l, kept, size := EmbeddedForm(s, first);
    var t := EmbedSignature(s, first).value;
    CertAtAligned(kept);
    AttachAgain(s, t, l, kept, size, first, second);
  }

  lemma {:induction false} AttachAgain(s: Buffer, t: Buffer, l: Layout, kept: nat, size: nat, first: Buffer, second: Buffer)
    requires SignedForm(t, s, l, kept, CertAt(kept), size, first)
    requires CertAt(CertAt(kept)) == CertAt(kept) && Padding(CertAt(kept)) == []
    ensures Attach(t, l, CertAt(kept), second) == Attach(s, l, kept, second)
  {
    if |second| <= UINT32_MAX - 8 && CertAt(kept) <= UINT32_MAX && |Certificate(second)| <= UINT32_MAX {
      AssembledAgain(s, t, l, kept, CertAt(kept), Padding(kept), Certificate(second), DirectoryEntry(CertAt(kept), |Certificate(second)|));
    }
  }

  // ── The digest ─────────────────────────────────────────────

  lemma {:induction false} HashedSame(s: Buffer, t: Buffer, l: Layout, kept: nat, at: nat)
    requires l.HeadersEnd() <= kept <= |s| && kept <= at <= |t|
    requires SameHeaders(s, t, l) && t[l.HeadersEnd()..kept] == s[l.HeadersEnd()..kept] && t[kept..at] == Zeros(at - kept)
    ensures Hashed(t, l, at) == Hashed(s, l, kept) + Zeros(at - kept)
  {
    assert t[l.HeadersEnd()..at] == t[l.HeadersEnd()..kept] + t[kept..at];
    var a, b, c := s[..l.CheckSumAt()], s[l.CheckSumAt() + 4..l.Directory()], s[l.HeadersEnd()..kept];
    assert a + b + (c + Zeros(at - kept)) == (a + b + c) + Zeros(at - kept);
  }

  lemma {:induction false} DigestOfForm(s: Buffer, t: Buffer, l: Layout, kept: nat, size: nat, blob: Buffer)
    requires SignedForm(t, s, l, kept, CertAt(kept), size, blob)
    requires ParsePeLayout(t) == Some(l) && ValidateCertificateTable(t, l) == Some(Table(true, CertAt(kept), size, 8 + |blob|))
    ensures DigestInput(t) == Some(Hashed(s, l, kept) + Padding(kept))
  {
    HashedSame(s, t, l, kept, CertAt(kept));
    assert Hashed(t, l, CertAt(kept)) + [] == Hashed(t, l, CertAt(kept));
  }

  lemma {:induction false} DigestOf(s: Buffer, l: Layout, table: Table)
    requires ParsePeLayout(s) == Some(l) && ValidateCertificateTable(s, l) == Some(table)
    ensures DigestInput(s) == Some(Hashed(s, l, KeptSize(s, table)) + if table.present then [] else Padding(KeptSize(s, table)))
  {
  }

  lemma {:induction false} PaddingShows(h: Buffer, kept: nat)
    ensures h + Padding(kept) == h + [] <==> kept % 8 == 0
  {
    if kept % 8 != 0 {
      assert |h + Padding(kept)| != |h + []|;
    }
  }

  /** The bytes fed to the hash are kept by embedding exactly when the file is unsigned or its table
      starts on a multiple of 8; otherwise the padding that embedding adds is hashed as well. */
  lemma {:induction false} DigestKept(s: Buffer, blob: Buffer)
    requires EmbedSignature(s, blob).Some?
    ensures var l := ParsePeLayout(s).value; var table := ValidateCertificateTable(s, l).value;
      DigestInput(EmbedSignature(s, blob).value) == DigestInput(s) <==> !table.present || table.address % 8 == 0
  {
    var l, kept, size := EmbeddedForm(s, blob);
    DigestOfForm(s, EmbedSignature(s, blob).value, l, kept, size, blob);
    DigestOf(s, l, ValidateCertificateTable(s, l).value);
    PaddingShows(Hashed(s, l, kept), kept);
  }

  // ── Stripping ──────────────────────────────────────────────

  /** Trimming a file of its own bytes and padding. */
  lemma {:induction false} TrimPad(t: Buffer, kept: nat, at: nat, floor: nat, left: nat)
    requires kept <= at <= |t| && at - kept <= left && (at > kept ==> floor <= kept) && forall i :: kept <= i < at ==> t[i] == 0
    ensures Trimmed(t, at, floor, left) == Trimmed(t, kept, floor, left - (at - kept))
    decreases at
  {
    if at > kept { TrimPad(t, kept, at - 1, floor, left - 1); }
  }

  lemma {:induction false} TrimNotBelow(t: Buffer, size: nat, floor: nat, left: nat, kept: nat)
    requires kept < size <= |t| && kept < floor
    ensures Trimmed(t, size, floor, left) > kept
    decreases left
  {
    if left > 0 && size > floor && t[size - 1] == 0 { TrimNotBelow(t, size - 1, floor, left - 1, kept); }
  }

  /** Trimming stops at the end of the file's own bytes exactly when it can remove all of the padding and
      no more: the floor is not above them, and they end in a byte that stays. */
  lemma {:induction false} TrimExact(t: Buffer, kept: nat, at: nat, floor: nat)
    requires 0 < kept <= at <= |t| && at - kept <= 7 && forall i :: kept <= i < at ==> t[i] == 0
    ensures Trimmed(t, at, floor, 7) == kept
        <==> (at == kept || floor <= kept) && (at - kept == 7 || kept <= floor || t[kept - 1] != 0)
  {
    if at == kept || floor <= kept {
      TrimPad(t, kept, at, floor, 7);
    } else {
      TrimNotBelow(t, at, floor, 7, kept);
    }
  }

  lemma {:induction false} StripOf(t: Buffer, l: Layout, table: Table, n: nat)
    requires ParsePeLayout(t) == Some(l) && ValidateCertificateTable(t, l) == Some(table) && table.present
    requires n == Trimmed(t, table.address, StripFloor(t, l), 7)
    ensures StripSignature(t) == if l.HeadersEnd() > n then None else Some(Recalc(Put(t[..n], l.Directory(), Zeros(8)), l.CheckSumAt()))
  {
  }

  /** An unsigned file with a zeroed directory entry and a fresh checksum. */
  function Cleared(s: Buffer, l: Layout): Buffer
    requires l.HeadersEnd() <= |s|
  {
    Recalc(Put(s, l.Directory(), Zeros(8)), l.CheckSumAt())
  }

  lemma {:induction false} ClearedAgain(s: Buffer, t: Buffer, l: Layout, kept: nat)
    requires l.HeadersEnd() <= kept == |s| && kept <= |t| && SameHeaders(s, t, l) && t[l.HeadersEnd()..kept] == s[l.HeadersEnd()..kept]
    ensures Recalc(Put(t[..kept], l.Directory(), Zeros(8)), l.CheckSumAt()) == Cleared(s, l)
  {
    AssembledAgain(s, t, l, kept, kept, [], [], Zeros(8));
    assert s[..kept] + [] + [] == s && t[..kept] + [] + [] == t[..kept];
  }

  lemma {:induction false} SizeOfCleared(t: Buffer, l: Layout, n: nat, s: Buffer)
    requires l.HeadersEnd() <= n <= |t| && l.HeadersEnd() <= |s| && n != |s|
    ensures Recalc(Put(t[..n], l.Directory(), Zeros(8)), l.CheckSumAt()) != Cleared(s, l)
  {
    assert |Recalc(Put(t[..n], l.Directory(), Zeros(8)), l.CheckSumAt())| == n;
  }

  /** Stripping a freshly signed file that was unsigned gives it back, but for a zeroed directory entry
      and a fresh checksum, exactly when trimming stops at its old end. */
  lemma {:induction false} StripEmbedded(s: Buffer, blob: Buffer)
    requires EmbedSignature(s, blob).Some?
    requires var l := ParsePeLayout(s).value; !ValidateCertificateTable(s, l).value.present && l.HeadersEnd() < |s|
    ensures var l := ParsePeLayout(s).value; var t := EmbedSignature(s, blob).value;
      && ParsePeLayout(t) == Some(l)
      && (StripSignature(t) == Some(Cleared(s, l))
          <==> (var floor := StripFloor(t, l);
                (Pad8(|s|) == 0 || floor <= |s|) && (Pad8(|s|) == 7 || |s| <= floor || s[|s| - 1] != 0)))
  {
    var l, kept, size := EmbeddedForm(s, blob);
    var t := EmbedSignature(s, blob).value;
    StripForm(s, t, l, size, blob, StripFloor(t, l));
  }

  lemma {:induction false} StripForm(s: Buffer, t: Buffer, l: Layout, size: nat, blob: Buffer, floor: nat)
    requires l.HeadersEnd() < |s| && SignedForm(t, s, l, |s|, CertAt(|s|), size, blob) && ParsePeLayout(t) == Some(l)
    requires ValidateCertificateTable(t, l) == Some(Table(true, CertAt(|s|), size, 8 + |blob|)) && floor == StripFloor(t, l)
    ensures StripSignature(t) == Some(Cleared(s, l))
        <==> (Pad8(|s|) == 0 || floor <= |s|) && (Pad8(|s|) == 7 || |s| <= floor || s[|s| - 1] != 0)
  {
    var kept, at := |s|, CertAt(|s|);
    PadIsZero(t, kept, at);
    LastByte(s, t, l, kept);
    TrimExact(t, kept, at, floor);
    var n := Trimmed(t, at, floor, 7);
    StripOf(t, l, Table(true, at, size, 8 + |blob|), n);
    if n == kept { ClearedAgain(s, t, l, kept); }
    else if l.HeadersEnd() <= n { SizeOfCleared(t, l, n, s); }
  }

  lemma {:induction false} PadIsZero(t: Buffer, kept: nat, at: nat)
    requires kept <= at <= |t| && t[kept..at] == Zeros(at - kept)
    ensures forall i :: kept <= i < at ==> t[i] == 0
  {
    forall i | kept <= i < at ensures t[i] == 0 {
      assert t[i] == t[kept..at][i - kept];
    }
  }

  lemma {:induction false} LastByte(s: Buffer, t: Buffer, l: Layout, kept: nat)
    requires l.HeadersEnd() < kept <= |s| && kept <= |t| && t[l.HeadersEnd()..kept] == s[l.HeadersEnd()..kept]
    ensures t[kept - 1] == s[kept - 1]
  {
    var h := l.HeadersEnd();
    assert t[kept - 1] == t[h..kept][kept - 1 - h] == s[h..kept][kept - 1 - h];
  }

  lemma {:induction false} FloorSame(s: Buffer, t: Buffer, lo: nat, start: nat, i: nat, floor: nat)
    requires lo <= start && start + i * 40 <= |s| <= |t| && t[lo..|s|] == s[lo..|s|]
    ensures FloorTo(t, start, i, floor) == FloorTo(s, start, i, floor)
  {
    hide U32;
    if i > 0 {
      FloorSame(s, t, lo, start, i - 1, floor);
      var entry := start + (i - 1) * 40;
      Same32(s, t, lo, |s|, entry + 16);
      Same32(s, t, lo, |s|, entry + 20);
    }
  }

  /** The section table follows the headers and lies inside the file. */
  ghost predicate TableInside(s: Buffer, l: Layout)
    requires l.HeadersEnd() <= |s|
  {
    l.HeadersEnd() <= SectionTable(s, l) && SectionTable(s, l) + SectionCount(s, l) * 40 <= |s|
  }

  /** For such a file the floor after signing is its own, so the condition of StripEmbedded can be checked
      before signing. */
  lemma {:induction false} FloorKept(s: Buffer, t: Buffer, l: Layout)
    requires SameHeaders(s, t, l) && |s| <= |t| && t[l.HeadersEnd()..|s|] == s[l.HeadersEnd()..|s|] && TableInside(s, l)
    ensures StripFloor(t, l) == StripFloor(s, l)
  {
    FieldsKept(s, t, l);
    FloorSame(s, t, l.HeadersEnd(), SectionTable(s, l), SectionCount(s, l), SizeOfHeaders(s, l));
  }

  lemma {:induction false} FieldsKept(s: Buffer, t: Buffer, l: Layout)
    requires SameHeaders(s, t, l)
    ensures SectionTable(t, l) == SectionTable(s, l) && SectionCount(t, l) == SectionCount(s, l) && SizeOfHeaders(t, l) == SizeOfHeaders(s, l)
  {
    Same16(s, t, 0, l.CheckSumAt(), l.pe + 20);
    Same16(s, t, 0, l.CheckSumAt(), l.pe + 6);
    Same32(s, t, 0, l.CheckSumAt(), l.Optional() + 60);
  }

  lemma {:induction false} FormRestoresExactly(s: Buffer, t: Buffer, l: Layout, size: nat, blob: Buffer)
    requires l.HeadersEnd() < |s| && SignedForm(t, s, l, |s|, CertAt(|s|), size, blob) && ParsePeLayout(t) == Some(l)
    requires ValidateCertificateTable(t, l) == Some(Table(true, CertAt(|s|), size, 8 + |blob|)) && TableInside(s, l)
    ensures StripSignature(t) == Some(Cleared(s, l))
        <==> (Pad8(|s|) == 0 || StripFloor(s, l) <= |s|) && (Pad8(|s|) == 7 || |s| <= StripFloor(s, l) || s[|s| - 1] != 0)
  {
    hide StripFloor, StripSignature, ParsePeLayout, ValidateCertificateTable, Cleared;
    FloorKept(s, t, l);
    StripForm(s, t, l, size, blob, StripFloor(t, l));
  }

  /** When a file is restored, told from the file alone before it is signed: its floor is at most its length unless
      no padding was needed, and its last byte is not zero unless padding of seven bytes or its floor keeps it. */
  lemma {:induction false} StripRestoresExactly(s: Buffer, blob: Buffer, l: Layout)
    requires EmbedSignature(s, blob).Some? && ParsePeLayout(s) == Some(l)
    requires !ValidateCertificateTable(s, l).value.present && l.HeadersEnd() < |s| && TableInside(s, l)
    ensures StripSignature(EmbedSignature(s, blob).value) == Some(Cleared(s, l))
        <==> (Pad8(|s|) == 0 || StripFloor(s, l) <= |s|) && (Pad8(|s|) == 7 || |s| <= StripFloor(s, l) || s[|s| - 1] != 0)
  {
    hide StripFloor, StripSignature, Cleared;
    var m, kept, size := EmbeddedForm(s, blob);
    FormRestoresExactly(s, EmbedSignature(s, blob).value, l, size, blob);
  }
}
