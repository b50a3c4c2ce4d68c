/** The bytes of a written package, and where each region lies in them. */
module CfbFile {
  import opened Bytes
  import opened CfbModel
  import opened CfbTree
  import opened CfbDirectory
  import opened CfbLayout
  import opened CfbEncoding
  import opened CfbImage

  // ── Stream data ────────────────────────────────────────────

  lemma {:induction false} WeightCovers(e: Entry, mini: bool, major: nat)
    requires InClass(e, mini)
    ensures |e.data| <= Weight(e, mini, major) * UnitOf(mini, major)
  {
    UnitsBounds(|e.data|, UnitOf(mini, major));
  }

  /** A stream's bytes, padded with zeros to whole units. */
  function Padded(e: Entry, mini: bool, major: nat): (s: Buffer)
    ensures |s| == Weight(e, mini, major) * UnitOf(mini, major)
    ensures InClass(e, mini) ==> |e.data| <= |s| && s[..|e.data|] == e.data
  {
    if !InClass(e, mini) then []
    else
      WeightCovers(e, mini, major);
      e.data + Zeros(Weight(e, mini, major) * UnitOf(mini, major) - |e.data|)
  }

  function DataParts(es: seq<Entry>, mini: bool, major: nat): (p: seq<Buffer>)
    ensures |p| == |es| && forall i :: 0 <= i < |es| ==> p[i] == Padded(es[i], mini, major)
  {
    seq(|es|, i requires 0 <= i < |es| => Padded(es[i], mini, major))
  }

  lemma {:induction false} DataLength(es: seq<Entry>, parts: seq<Buffer>, i: nat, mini: bool, major: nat)
    requires |parts| == |es| && i <= |es|
    requires forall j :: 0 <= j < |es| ==> |parts[j]| == Weight(es[j], mini, major) * UnitOf(mini, major)
    ensures |Join(parts[..i])| == Sum(es, i, mini, major) * UnitOf(mini, major)
    decreases i
  {
    if i > 0 {
      DataLength(es, parts, i - 1, mini, major);
      JoinStep(parts, i - 1);
      Distribute(Sum(es, i - 1, mini, major), Weight(es[i - 1], mini, major), UnitOf(mini, major));
    }
  }

  lemma {:induction false} Distribute(a: nat, b: nat, u: nat)
    ensures (a + b) * u == a * u + b * u
  {
  }

  /** The streams of one class, each in a run of whole units, in directory order. */
  function DataRegion(es: seq<Entry>, mini: bool, major: nat): (s: Buffer)
    ensures |s| == Sum(es, |es|, mini, major) * UnitOf(mini, major)
  {
    var parts := DataParts(es, mini, major);
    DataLength(es, parts, |es|, mini, major);
    assert parts[..|es|] == parts;
    Join(parts)
  }

  lemma {:induction false} DataAt(es: seq<Entry>, i: nat, mini: bool, major: nat)
    requires i < |es| && InClass(es[i], mini)
    ensures var at := Sum(es, i, mini, major) * UnitOf(mini, major);
      && at + |es[i].data| <= |DataRegion(es, mini, major)|
      && DataRegion(es, mini, major)[at..at + |es[i].data|] == es[i].data
  {
    var parts := DataParts(es, mini, major);
    DataLength(es, parts, i, mini, major);
    JoinSlice(parts, i);
    var at := Sum(es, i, mini, major) * UnitOf(mini, major);
    SliceSlice(Join(parts), at, at + |parts[i]|, 0, |es[i].data|);
  }

  // ── The directory ──────────────────────────────────────────

  /** The stored form of an entry. The root records the mini stream. */
  function DirOf(es: seq<Entry>, p: Plan, i: nat): DirEntry
    requires i < |es|
  {
    var e := es[i];
    if i == 0 then
      DirEntry(e.meta, KIND_ROOT, e.left, e.right, e.child, if p.minis == 0 then END_OF_CHAIN else p.streams, p.minis * MINI_SECTOR_SIZE)
    else if e.isStorage then DirEntry(e.meta, KIND_STORAGE, e.left, e.right, e.child, 0, 0)
    else DirEntry(e.meta, KIND_STREAM, e.left, e.right, e.child, StreamStart(es, i, p.major), |e.data|)
  }

  function UnusedEntry(): (s: Buffer)
    ensures |s| == DIR_ENTRY_SIZE
  {
    Zeros(68) + LE32(NO_STREAM) + LE32(NO_STREAM) + LE32(NO_STREAM) + Zeros(36) + LE32(FREE_SECTOR) + Zeros(8)
  }

  lemma {:induction false} DirOfFits(es: seq<Entry>, p: Plan, i: nat)
    requires Planned(es, p) && i < |es|
    ensures EntryFits(DirOf(es, p, i))
    ensures p.major == 3 ==> DirOf(es, p, i).size < LIMIT32
  {
    StartFits(es, p, i);
    assert EntryDescribable(es[i], p.major);
  }

  lemma {:induction false} SlotsCover(p: Plan)
    ensures p.entries <= p.Slots() && p.Slots() * DIR_ENTRY_SIZE == p.DirSectors() * p.Unit()
  {
    UnitsBounds(p.entries, p.DirPer());
    if p.Unit() == 512 { } else { }
  }

  /** The directory padded with unused entries to whole sectors. */
  function DirBlocks(es: seq<Entry>, p: Plan): (b: seq<Buffer>)
    requires Planned(es, p)
    ensures |b| == p.Slots() && forall i :: 0 <= i < |b| ==> b[i] == DirBlock(es, p, i)
  {
    seq(p.Slots(), i requires 0 <= i < p.Slots() => DirBlock(es, p, i))
  }

  function DirBlock(es: seq<Entry>, p: Plan, i: nat): (b: Buffer)
    requires Planned(es, p)
    ensures |b| == DIR_ENTRY_SIZE
    ensures i < |es| ==> EntryFits(DirOf(es, p, i)) && b == EncodeEntry(DirOf(es, p, i))
  {
    if i < |es| then DirOfFits(es, p, i); EncodeEntry(DirOf(es, p, i)) else UnusedEntry()
  }

  // ── The file ───────────────────────────────────────────────

  function HeaderOf(p: Plan, minor: nat): Header {
    Header(p.major, minor, MINI_STREAM_CUTOFF, p.DirStart(),
           if p.MiniIndexSectors() == 0 then END_OF_CHAIN else p.MiniIndexStart(), p.MiniIndexSectors(),
           if p.difat == 0 then END_OF_CHAIN else p.DifatStart(), p.difat)
  }

  lemma {:induction false} HeaderOfFits(es: seq<Entry>, p: Plan, minor: nat)
    requires Planned(es, p)
    ensures HeaderFits(HeaderOf(p, minor)) && p.DirSectors() < LIMIT32 && p.fat < LIMIT32
  {
  }

  lemma {:induction false} MiniRegionFits(p: Plan)
    ensures p.minis * MINI_SECTOR_SIZE <= p.MiniSectors() * p.Unit()
  {
    UnitsBounds(p.minis * MINI_SECTOR_SIZE, p.Unit());
  }

  ghost function HeadRegion(es: seq<Entry>, seed: Seed, p: Plan): (s: Buffer)
    requires Planned(es, p) && SeedFits(seed) && seed.major == p.major
    ensures |s| == p.Unit()
  {
    HeaderOfFits(es, p, seed.minor);
    ListsFit(p);
    EncodeHeader(seed, HeaderOf(p, seed.minor), p.DirSectors(), p.fat, HeaderList(p))
  }

  function MiniRegion(es: seq<Entry>, p: Plan): (s: Buffer)
    requires p.minis == Sum(es, |es|, true, p.major)
    ensures |s| == p.MiniSectors() * p.Unit()
  {
    MiniRegionFits(p);
    DataRegion(es, true, p.major) + Zeros(p.MiniSectors() * p.Unit() - p.minis * MINI_SECTOR_SIZE)
  }

  ghost function MiniIndexRegion(es: seq<Entry>, p: Plan): (s: Buffer)
    requires Planned(es, p)
    ensures |s| == p.MiniIndexSectors() * p.Unit()
  {
    MiniTableFits(es, p);
    Quarter(p.MiniIndexSectors(), p);
    Encode32(MiniTable(es, p))
  }

  ghost function DirRegion(es: seq<Entry>, p: Plan): (s: Buffer)
    requires Planned(es, p)
    ensures |s| == p.DirSectors() * p.Unit()
  {
    SlotsCover(p);
    JoinUniform(DirBlocks(es, p), DIR_ENTRY_SIZE);
    Join(DirBlocks(es, p))
  }

  function DifatRegion(p: Plan): (s: Buffer)
    requires p.Total() <= MAX_SECTORS
    ensures |s| == p.difat * p.Unit()
  {
    ListsFit(p);
    Quarter(p.difat, p);
    Encode32(DifatTable(p))
  }

  ghost function FatRegion(es: seq<Entry>, p: Plan): (s: Buffer)
    requires Planned(es, p)
    ensures |s| == p.fat * p.Unit()
  {
    FatTableFits(es, p);
    FatTableSize(es, p);
    Quarter(p.fat, p);
    Encode32(FatTable(es, p))
  }

  lemma {:induction false} Quarter(n: nat, p: Plan)
    ensures 4 * (n * p.Per()) == n * p.Unit()
  {
    if p.Unit() == 512 { } else { }
  }

  /** The regions in file order. */
  ghost function Regions(es: seq<Entry>, seed: Seed, p: Plan): (r: seq<Buffer>)
    requires Planned(es, p) && SeedFits(seed) && seed.major == p.major
    ensures |r| == 7
  {
    [HeadRegion(es, seed, p), DataRegion(es, false, p.major), MiniRegion(es, p), MiniIndexRegion(es, p),
     DirRegion(es, p), DifatRegion(p), FatRegion(es, p)]
  }

  ghost function Image(es: seq<Entry>, seed: Seed, p: Plan): Buffer
    requires Planned(es, p) && SeedFits(seed) && seed.major == p.major
  {
    Join(Regions(es, seed, p))
  }

  ghost predicate Sized(r: seq<Buffer>, p: Plan) {
    && |r| == 7 && |r[0]| == p.Unit()
    && forall k :: 1 <= k < 7 ==> |r[k]| == (RegionStart(p, k) - RegionStart(p, k - 1)) * p.Unit()
  }

  lemma {:induction false} RegionsSized(es: seq<Entry>, seed: Seed, p: Plan)
    requires Planned(es, p) && SeedFits(seed) && seed.major == p.major
    ensures Sized(Regions(es, seed, p), p)
  {
    SizedOf(HeadRegion(es, seed, p), DataRegion(es, false, p.major), MiniRegion(es, p), MiniIndexRegion(es, p),
            DirRegion(es, p), DifatRegion(p), FatRegion(es, p), p);
  }

  lemma {:induction false} SizedOf(a: Buffer, b: Buffer, c: Buffer, d: Buffer, e: Buffer, f: Buffer, g: Buffer, p: Plan)
    requires |a| == p.Unit() && |b| == p.streams * p.Unit() && |c| == p.MiniSectors() * p.Unit()
    requires |d| == p.MiniIndexSectors() * p.Unit() && |e| == p.DirSectors() * p.Unit()
    requires |f| == p.difat * p.Unit() && |g| == p.fat * p.Unit()
    ensures Sized([a, b, c, d, e, f, g], p)
  {
  }

  lemma {:induction false} OffsetOf(r: seq<Buffer>, p: Plan, k: nat)
    requires Sized(r, p) && 1 <= k <= 7
    ensures |Join(r[..k])| == SectorStart(p.major, RegionStart(p, k - 1))
  {
    JoinStep(r, k - 1);
    if k == 1 {
      assert r[..0] == [];
    } else {
      OffsetOf(r, p, k - 1);
      Distribute(RegionStart(p, k - 2), RegionStart(p, k - 1) - RegionStart(p, k - 2), p.Unit());
    }
  }

  lemma {:induction false} PieceAt(r: seq<Buffer>, p: Plan, k: nat)
    requires Sized(r, p) && 1 <= k < 7
    ensures HoldsAt(Join(r), SectorStart(p.major, RegionStart(p, k - 1)), r[k])
  {
    JoinSlice(r, k);
    OffsetOf(r, p, k);
  }

  lemma {:induction false} CountOfWhole(major: nat, total: nat)
    ensures SectorCount(major, SectorStart(major, total)) == total
  {
    if SectorSize(major) == 512 { } else { }
  }

  lemma {:induction false} WholeSize(r: seq<Buffer>, p: Plan)
    requires Sized(r, p)
    ensures |Join(r)| == SectorStart(p.major, p.Total())
  {
    OffsetOf(r, p, 7);
    assert r[..7] == r;
  }

  lemma {:induction false} HeadOf(r: seq<Buffer>, p: Plan)
    requires Sized(r, p)
    ensures p.Unit() <= |Join(r)| && Join(r)[..p.Unit()] == r[0]
  {
    JoinSlice(r, 0);
    assert r[..0] == [];
  }

  lemma {:induction false} PiecesLaid(a: Buffer, b: Buffer, c: Buffer, d: Buffer, e: Buffer, f: Buffer, g: Buffer, p: Plan)
    requires Sized([a, b, c, d, e, f, g], p)
    ensures var img := Join([a, b, c, d, e, f, g]); var m := p.major;
      && |img| == SectorStart(m, p.Total()) && SectorCount(m, |img|) == p.Total()
      && p.Unit() <= |img| && img[..p.Unit()] == a
      && HoldsAt(img, SectorStart(m, 0), b) && HoldsAt(img, SectorStart(m, p.streams), c)
      && HoldsAt(img, SectorStart(m, p.MiniIndexStart()), d) && HoldsAt(img, SectorStart(m, p.DirStart()), e)
      && HoldsAt(img, SectorStart(m, p.DifatStart()), f) && HoldsAt(img, SectorStart(m, p.FatStart()), g)
  {
    var r := [a, b, c, d, e, f, g];
    WholeSize(r, p);
    CountOfWhole(p.major, p.Total());
    HeadOf(r, p);
    PieceAt(r, p, 1);
    PieceAt(r, p, 2);
    PieceAt(r, p, 3);
    PieceAt(r, p, 4);
    PieceAt(r, p, 5);
    PieceAt(r, p, 6);
  }

  /** A file with every region in its place. */
  ghost predicate Laid(img: Buffer, es: seq<Entry>, seed: Seed, p: Plan)
    requires Planned(es, p) && SeedFits(seed) && seed.major == p.major
  {
    var m := p.major;
    && |img| == SectorStart(m, p.Total()) && SectorCount(m, |img|) == p.Total()
    && p.Unit() <= |img| && img[..p.Unit()] == HeadRegion(es, seed, p)
    && HoldsAt(img, SectorStart(m, 0), DataRegion(es, false, m)) && HoldsAt(img, SectorStart(m, p.streams), MiniRegion(es, p))
    && HoldsAt(img, SectorStart(m, p.MiniIndexStart()), MiniIndexRegion(es, p))
    && HoldsAt(img, SectorStart(m, p.DirStart()), DirRegion(es, p))
    && HoldsAt(img, SectorStart(m, p.DifatStart()), DifatRegion(p)) && HoldsAt(img, SectorStart(m, p.FatStart()), FatRegion(es, p))
  }

  lemma {:induction false} ImageLaid(es: seq<Entry>, seed: Seed, p: Plan)
    requires Planned(es, p) && SeedFits(seed) && seed.major == p.major
    ensures Laid(Image(es, seed, p), es, seed, p)
  {
    RegionsSized(es, seed, p);
    PiecesLaid(HeadRegion(es, seed, p), DataRegion(es, false, p.major), MiniRegion(es, p), MiniIndexRegion(es, p),
               DirRegion(es, p), DifatRegion(p), FatRegion(es, p), p);
  }
}
