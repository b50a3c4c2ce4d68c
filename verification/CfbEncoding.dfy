/** The bytes of a directory entry and of the header, as the writer stores them. */
module CfbEncoding {
  import opened Bytes
  import opened CfbModel
  import opened CfbTree
  import opened CfbDirectory
  import opened CfbLayout
  import opened CfbReader

  // ── Names ──────────────────────────────────────────────────

  function NamePieces(name: Name): (p: seq<Buffer>)
    ensures |p| == |name| && forall i :: 0 <= i < |p| ==> p[i] == LE16(name[i])
  {
    seq(|name|, i requires 0 <= i < |name| => LE16(name[i]))
  }

  function EncodeName(name: Name): (s: Buffer)
    requires |name| <= 31
    ensures |s| == 64
  {
    JoinUniform(NamePieces(name), 2);
    Join(NamePieces(name)) + Zeros(64 - 2 * |name|)
  }

  lemma {:induction false} NameBack(s: Buffer, at: nat, name: Name)
    requires |name| <= 31 && at + 64 <= |s| && s[at..at + 64] == EncodeName(name)
    ensures NameUnits(s, at, |name|) == name
  {
    forall i | 0 <= i < |name| ensures U16(s, at + 2 * i) == name[i] {
      UniformSlice(NamePieces(name), 2, i);
      SliceOfPrefix(Join(NamePieces(name)), Zeros(64 - 2 * |name|), 2 * i, 2 * i + 2);
      SliceSlice(s, at, at + 64, 2 * i, 2 * i + 2);
      Read16(s, at + 2 * i, name[i]);
    }
  }

  // ── Directory entries ──────────────────────────────────────

  /** Every field of an entry fits where the format puts it. */
  predicate MetaFits(m: Meta) {
    |m.name| <= 31 && |m.classId| == 16 && m.stateBits < LIMIT32 && m.created < LIMIT64 && m.modified < LIMIT64
  }

  predicate EntryFits(d: DirEntry) {
    && MetaFits(d.meta) && d.kind < 256
    && d.left < LIMIT32 && d.right < LIMIT32 && d.child < LIMIT32 && d.start < LIMIT32 && d.size < LIMIT64
  }

  function EncodeLinks(d: DirEntry): (s: Buffer)
    requires EntryFits(d)
    ensures |s| == 16
  {
    LE16(2 * |d.meta.name| + 2) + [d.kind, 1] + LE32(d.left) + LE32(d.right) + LE32(d.child)
  }

  function EncodeTail(d: DirEntry): (s: Buffer)
    requires EntryFits(d)
    ensures |s| == 32
  {
    LE32(d.meta.stateBits) + LE64(d.meta.created) + LE64(d.meta.modified) + LE32(d.start) + LE64(d.size)
  }

  function EncodeEntry(d: DirEntry): (s: Buffer)
    requires EntryFits(d)
    ensures |s| == DIR_ENTRY_SIZE
  {
    EncodeName(d.meta.name) + EncodeLinks(d) + d.meta.classId + EncodeTail(d)
  }

  lemma {:induction false} EntryParts(s: Buffer, at: nat, d: DirEntry)
    requires EntryFits(d) && at + 128 <= |s| && s[at..at + 128] == EncodeEntry(d)
    ensures s[at..at + 64] == EncodeName(d.meta.name) && s[at + 64..at + 80] == EncodeLinks(d)
    ensures s[at + 80..at + 96] == d.meta.classId && s[at + 96..at + 128] == EncodeTail(d)
  {
    var e := EncodeEntry(d);
    assert e[0..64] == EncodeName(d.meta.name) && e[64..80] == EncodeLinks(d);
    assert e[80..96] == d.meta.classId && e[96..128] == EncodeTail(d);
    SliceSlice(s, at, at + 128, 0, 64);
    SliceSlice(s, at, at + 128, 64, 80);
    SliceSlice(s, at, at + 128, 80, 96);
    SliceSlice(s, at, at + 128, 96, 128);
  }

  lemma {:induction false} LinksBack(s: Buffer, at: nat, d: DirEntry)
    requires EntryFits(d) && at + 16 <= |s| && s[at..at + 16] == EncodeLinks(d)
    ensures U16(s, at) == 2 * |d.meta.name| + 2 && s[at + 2] == d.kind
    ensures U32(s, at + 4) == d.left && U32(s, at + 8) == d.right && U32(s, at + 12) == d.child
  {
    var e := EncodeLinks(d);
    assert e[0..2] == LE16(2 * |d.meta.name| + 2) && e[2] == d.kind;
    assert e[4..8] == LE32(d.left) && e[8..12] == LE32(d.right) && e[12..16] == LE32(d.child);
    SliceSlice(s, at, at + 16, 0, 2);
    SliceSlice(s, at, at + 16, 4, 8);
    SliceSlice(s, at, at + 16, 8, 12);
    SliceSlice(s, at, at + 16, 12, 16);
    Read16(s, at, 2 * |d.meta.name| + 2);
    Read32(s, at + 4, d.left);
    Read32(s, at + 8, d.right);
    Read32(s, at + 12, d.child);
    assert s[at + 2] == s[at..at + 16][2];
  }

  lemma {:induction false} TailBack(s: Buffer, at: nat, d: DirEntry)
    requires EntryFits(d) && at + 32 <= |s| && s[at..at + 32] == EncodeTail(d)
    ensures U32(s, at) == d.meta.stateBits && U64(s, at + 4) == d.meta.created && U64(s, at + 12) == d.meta.modified
    ensures U32(s, at + 20) == d.start && U64(s, at + 24) == d.size
  {
    var e := EncodeTail(d);
    assert e[0..4] == LE32(d.meta.stateBits) && e[4..12] == LE64(d.meta.created);
    assert e[12..20] == LE64(d.meta.modified);
    assert e[20..24] == LE32(d.start) && e[24..32] == LE64(d.size);
    SliceSlice(s, at, at + 32, 0, 4);
    SliceSlice(s, at, at + 32, 4, 12);
    SliceSlice(s, at, at + 32, 12, 20);
    SliceSlice(s, at, at + 32, 20, 24);
    SliceSlice(s, at, at + 32, 24, 32);
    Read32(s, at, d.meta.stateBits);
    Read64(s, at + 4, d.meta.created);
    Read64(s, at + 12, d.meta.modified);
    Read32(s, at + 20, d.start);
    Read64(s, at + 24, d.size);
  }

  /** An entry is read back from its bytes, apart from the upper half of a size in version 3. */
  lemma {:induction false} EntryBack(d: DirEntry, major: nat)
    requires EntryFits(d)
    ensures DecodeEntry(EncodeEntry(d), major) == d.(size := if major == 4 then d.size else d.size % LIMIT32)
  {
    var s := EncodeEntry(d);
    assert s[0..128] == s;
    EntryParts(s, 0, d);
    NameBack(s, 0, d.meta.name);
    LinksBack(s, 64, d);
    TailBack(s, 96, d);
  }

  lemma {:induction false} EntryKept(s: Buffer, d: DirEntry, major: nat)
    requires EntryFits(d) && (major == 4 || d.size < LIMIT32) && s == EncodeEntry(d)
    ensures DecodeEntry(s, major) == d
  {
    EntryBack(d, major);
  }

  // ── The header ─────────────────────────────────────────────

  /** What the writer keeps of the old header. */
  datatype Seed = Seed(major: nat, minor: nat, classId: Buffer, transaction: Buffer)

  predicate SeedFits(seed: Seed) {
    && (seed.major == 3 || seed.major == 4) && seed.minor < LIMIT16
    && |seed.classId| == 16 && |seed.transaction| == 4
  }

  predicate HeaderFits(h: Header) {
    && h.cutoff == MINI_STREAM_CUTOFF && h.firstDir < LIMIT32 && h.firstMiniFat < LIMIT32 && h.miniFatSectors < LIMIT32
    && h.firstDifat < LIMIT32 && h.difatSectors < LIMIT32
  }

  function HeadVersion(seed: Seed): (s: Buffer)
    requires SeedFits(seed)
    ensures |s| == 16
  {
    LE16(seed.minor) + LE16(seed.major) + LE16(BYTE_ORDER) + LE16(if seed.major == 4 then 12 else 9) + LE16(6) + Zeros(6)
  }

  function HeadCounts(seed: Seed, h: Header, dirSectors: nat, fatSectors: nat): (s: Buffer)
    requires SeedFits(seed) && HeaderFits(h) && dirSectors < LIMIT32 && fatSectors < LIMIT32
    ensures |s| == 20
  {
    LE32(if seed.major == 4 then dirSectors else 0) + LE32(fatSectors) + LE32(h.firstDir) + seed.transaction + LE32(h.cutoff)
  }

  function HeadTables(h: Header): (s: Buffer)
    requires HeaderFits(h)
    ensures |s| == 16
  {
    LE32(h.firstMiniFat) + LE32(h.miniFatSectors) + LE32(h.firstDifat) + LE32(h.difatSectors)
  }

  /** The first sector of the file: `listed` are the first allocation index sectors. */
  function EncodeHeader(seed: Seed, h: Header, dirSectors: nat, fatSectors: nat, listed: seq<nat>): (s: Buffer)
    requires SeedFits(seed) && HeaderFits(h) && dirSectors < LIMIT32 && fatSectors < LIMIT32
    requires |listed| == HEADER_DIFAT_ENTRIES && forall i :: 0 <= i < |listed| ==> listed[i] < LIMIT32
    ensures |s| == SectorSize(seed.major)
  {
    (MAGIC + seed.classId) + HeadVersion(seed) + HeadCounts(seed, h, dirSectors, fatSectors) + HeadTables(h)
    + Encode32(listed) + Zeros(SectorSize(seed.major) - 512)
  }

  lemma {:induction false} HeaderParts(s: Buffer, seed: Seed, h: Header, d: nat, f: nat, listed: seq<nat>)
    requires SeedFits(seed) && HeaderFits(h) && d < LIMIT32 && f < LIMIT32
    requires |listed| == HEADER_DIFAT_ENTRIES && forall i :: 0 <= i < |listed| ==> listed[i] < LIMIT32
    requires SectorSize(seed.major) <= |s| && s[..SectorSize(seed.major)] == EncodeHeader(seed, h, d, f, listed)
    ensures s[0..24] == MAGIC + seed.classId && s[24..40] == HeadVersion(seed)
    ensures s[40..60] == HeadCounts(seed, h, d, f) && s[60..76] == HeadTables(h)
    ensures s[76..512] == Encode32(listed)
  {
    var n := SectorSize(seed.major);
    var e := EncodeHeader(seed, h, d, f, listed);
    assert e[0..24] == MAGIC + seed.classId && e[24..40] == HeadVersion(seed);
    assert e[40..60] == HeadCounts(seed, h, d, f) && e[60..76] == HeadTables(h);
    assert e[76..512] == Encode32(listed);
    SliceSlice(s, 0, n, 0, 24);
    SliceSlice(s, 0, n, 24, 40);
    SliceSlice(s, 0, n, 40, 60);
    SliceSlice(s, 0, n, 60, 76);
    SliceSlice(s, 0, n, 76, 512);
  }

  lemma {:induction false} VersionBack(s: Buffer, seed: Seed)
    requires SeedFits(seed) && 512 <= |s| && s[24..40] == HeadVersion(seed)
    ensures U16(s, 24) == seed.minor && U16(s, 26) == seed.major && U16(s, 28) == BYTE_ORDER
    ensures U16(s, 30) == (if seed.major == 4 then 12 else 9) && U16(s, 32) == 6
  {
    var e := HeadVersion(seed);
    assert e[0..2] == LE16(seed.minor) && e[2..4] == LE16(seed.major) && e[4..6] == LE16(BYTE_ORDER);
    assert e[6..8] == LE16(if seed.major == 4 then 12 else 9) && e[8..10] == LE16(6);
    SliceSlice(s, 24, 40, 0, 2);
    SliceSlice(s, 24, 40, 2, 4);
    SliceSlice(s, 24, 40, 4, 6);
    SliceSlice(s, 24, 40, 6, 8);
    SliceSlice(s, 24, 40, 8, 10);
    Read16(s, 24, seed.minor);
    Read16(s, 26, seed.major);
    Read16(s, 28, BYTE_ORDER);
    Read16(s, 30, if seed.major == 4 then 12 else 9);
    Read16(s, 32, 6);
  }

  lemma {:induction false} CountsBack(s: Buffer, seed: Seed, h: Header, d: nat, f: nat)
    requires SeedFits(seed) && HeaderFits(h) && d < LIMIT32 && f < LIMIT32
    requires 512 <= |s| && s[40..60] == HeadCounts(seed, h, d, f)
    ensures U32(s, 48) == h.firstDir && s[52..56] == seed.transaction && U32(s, 56) == h.cutoff
  {
    var e := HeadCounts(seed, h, d, f);
    assert e[8..12] == LE32(h.firstDir) && e[12..16] == seed.transaction && e[16..20] == LE32(h.cutoff);
    SliceSlice(s, 40, 60, 8, 12);
    SliceSlice(s, 40, 60, 12, 16);
    SliceSlice(s, 40, 60, 16, 20);
    Read32(s, 48, h.firstDir);
    Read32(s, 56, h.cutoff);
  }

  lemma {:induction false} TablesBack(s: Buffer, h: Header)
    requires HeaderFits(h) && 512 <= |s| && s[60..76] == HeadTables(h)
    ensures U32(s, 60) == h.firstMiniFat && U32(s, 64) == h.miniFatSectors
    ensures U32(s, 68) == h.firstDifat && U32(s, 72) == h.difatSectors
  {
    var e := HeadTables(h);
    assert e[0..4] == LE32(h.firstMiniFat) && e[4..8] == LE32(h.miniFatSectors);
    assert e[8..12] == LE32(h.firstDifat) && e[12..16] == LE32(h.difatSectors);
    SliceSlice(s, 60, 76, 0, 4);
    SliceSlice(s, 60, 76, 4, 8);
    SliceSlice(s, 60, 76, 8, 12);
    SliceSlice(s, 60, 76, 12, 16);
    Read32(s, 60, h.firstMiniFat);
    Read32(s, 64, h.miniFatSectors);
    Read32(s, 68, h.firstDifat);
    Read32(s, 72, h.difatSectors);
  }

  /** The seed of a file, as the writer takes it from the source. */
  function SeedOf(s: Buffer, h: Header): Seed
    requires |s| >= 512
  {
    Seed(h.major, h.minor, s[8..24], s[52..56])
  }

  /** The header is read back, and with it everything the next write keeps. */
  lemma {:induction false} HeaderBack(s: Buffer, seed: Seed, h: Header, d: nat, f: nat, listed: seq<nat>)
    requires SeedFits(seed) && HeaderFits(h) && d < LIMIT32 && f < LIMIT32 && h.major == seed.major && h.minor == seed.minor
    requires |listed| == HEADER_DIFAT_ENTRIES && forall i :: 0 <= i < |listed| ==> listed[i] < LIMIT32
    requires SectorSize(seed.major) <= |s| && s[..SectorSize(seed.major)] == EncodeHeader(seed, h, d, f, listed)
    ensures ParseHeader(s) == Some(h) && SeedOf(s, h) == seed
    ensures Words(s, 76, HEADER_DIFAT_ENTRIES) == listed
  {
    HeaderParts(s, seed, h, d, f, listed);
    VersionBack(s, seed);
    CountsBack(s, seed, h, d, f);
    TablesBack(s, h);
    SliceSlice(s, 0, 24, 0, 8);
    SliceSlice(s, 0, 24, 8, 24);
    assert (MAGIC + seed.classId)[0..8] == MAGIC && (MAGIC + seed.classId)[8..24] == seed.classId;
    forall i | 0 <= i < |listed| ensures U32(s, 76 + 4 * i) == listed[i] {
      ReadTable(s, 76, listed, i);
    }
  }
}
