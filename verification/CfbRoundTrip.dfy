/** Parsing a written file gives back the tree it was written from. */
module CfbRoundTrip {
  import opened Bytes
  import opened CfbModel
  import opened CfbChains
  import opened CfbTree
  import opened CfbSearch
  import opened CfbDirectory
  import opened CfbLayout
  import opened CfbReader
  import opened CfbEncoding
  import opened CfbImage
  import opened CfbFile
  import opened CfbTables

  lemma {:induction false} RunWhole(major: nat, first: nat, count: nat, total: nat)
    requires first + count <= total
    ensures AllWhole(Range(first, count), major, SectorStart(major, total))
  {
    var run := Range(first, count);
    forall i | 0 <= i < count ensures WholeSector(major, run[i], SectorStart(major, total)) {
      WholeInside(major, first + i, total);
    }
  }

  // ── Mini index ─────────────────────────────────────────────

  lemma {:induction false} WordsJoin(pkg: Package, first: nat, count: nat, t: seq<nat>)
    requires AllWhole(Range(first, count), pkg.header.major, |pkg.source|)
    requires Words32(t) && HoldsAt(pkg.source, pkg.Start(first), Encode32(t)) && |t| == count * (pkg.Unit() / 4)
    ensures Join(SectorWords(pkg, Range(first, count))) == t
  {
    var per := pkg.Unit() / 4;
    var parts := SectorWords(pkg, Range(first, count));
    forall k | 0 <= k < count ensures ChunkOf(t, parts[k], k, per) {
      Multiples(count, k + 1, per);
      assert (k + 1) * per == k * per + per;
      TableSector(pkg.source, pkg.header.major, first, t, k);
    }
    JoinChunks(t, parts, per);
  }

  /** The mini index is read back whole. */
  lemma {:induction false} MiniIndexReads(pkg: Package, p: Plan, t: seq<nat>)
    requires pkg.Valid() && pkg.header.major == p.major && |pkg.source| == SectorStart(p.major, p.Total())
    requires pkg.header.miniFatSectors == p.MiniIndexSectors()
    requires p.MiniIndexSectors() > 0 ==> pkg.header.firstMiniFat == p.MiniIndexStart() && p.MiniIndexStart() != END_OF_CHAIN
    requires p.MiniIndexSectors() > 0 ==>
      Solo(pkg.Fat(), pkg.Count(), p.MiniIndexStart()) == Some(Range(p.MiniIndexStart(), p.MiniIndexSectors()))
    requires Words32(t) && |t| == p.MiniIndexSectors() * p.Per() && HoldsAt(pkg.source, pkg.Start(p.MiniIndexStart()), Encode32(t))
    ensures BuildMiniFat(pkg) == Some(t)
  {
    if p.MiniIndexSectors() > 0 {
      RunWhole(p.major, p.MiniIndexStart(), p.MiniIndexSectors(), p.Total());
      WordsJoin(pkg, p.MiniIndexStart(), p.MiniIndexSectors(), t);
    } else {
      assert t == [];
    }
  }

  // ── Directory ──────────────────────────────────────────────

  lemma {:induction false} SectorOfEntries(pkg: Package, first: nat, k: nat)
    ensures pkg.Start(first + k) == pkg.Start(first) + DIR_ENTRY_SIZE * (k * (pkg.Unit() / DIR_ENTRY_SIZE))
  {
    if pkg.Unit() == 512 { } else { }
  }

  /** A stretch of stored pieces is the pieces stored there. */
  lemma {:induction false} BlocksPart(s: Buffer, at: nat, n: nat, from: nat, m: nat)
    requires at + DIR_ENTRY_SIZE * n <= |s| && from + m <= n
    ensures Blocks(s, at + DIR_ENTRY_SIZE * from, m) == Blocks(s, at, n)[from..from + m]
  {
  }

  lemma {:induction false} BlocksJoin(pkg: Package, first: nat, count: nat)
    requires AllWhole(Range(first, count), pkg.header.major, |pkg.source|)
    requires pkg.Start(first) + DIR_ENTRY_SIZE * (count * (pkg.Unit() / DIR_ENTRY_SIZE)) <= |pkg.source|
    ensures Join(ChainBlocks(pkg, Range(first, count))) == Blocks(pkg.source, pkg.Start(first), count * (pkg.Unit() / DIR_ENTRY_SIZE))
  {
    var per := pkg.Unit() / DIR_ENTRY_SIZE;
    var t := Blocks(pkg.source, pkg.Start(first), count * per);
    var parts := ChainBlocks(pkg, Range(first, count));
    forall k | 0 <= k < count ensures ChunkOf(t, parts[k], k, per) {
      Multiples(count, k + 1, per);
      assert (k + 1) * per == k * per + per;
      SectorOfEntries(pkg, first, k);
      BlocksPart(pkg.source, pkg.Start(first), count * per, k * per, per);
    }
    JoinChunks(t, parts, per);
  }

  lemma {:induction false} BlockBack(img: Buffer, at: nat, blocks: seq<Buffer>, i: nat)
    requires AllEntries(blocks) && HoldsAt(img, at, Join(blocks)) && i < |blocks|
    ensures HoldsAt(img, at + DIR_ENTRY_SIZE * i, blocks[i])
  {
    UniformHolds(blocks, DIR_ENTRY_SIZE, i);
    HoldsWithin(img, at, Join(blocks), i * DIR_ENTRY_SIZE, blocks[i]);
  }

  /** Pieces joined and stored are read back as pieces. */
  lemma {:induction false} BlocksBack(img: Buffer, at: nat, blocks: seq<Buffer>)
    requires AllEntries(blocks) && HoldsAt(img, at, Join(blocks))
    ensures at + DIR_ENTRY_SIZE * |blocks| <= |img| && Blocks(img, at, |blocks|) == blocks
  {
    JoinUniform(blocks, DIR_ENTRY_SIZE);
    var b := Blocks(img, at, |blocks|);
    forall i | 0 <= i < |blocks| ensures b[i] == blocks[i] {
      BlockBack(img, at, blocks, i);
    }
  }

  lemma {:induction false} DirBlocksAreEntries(es: seq<Entry>, p: Plan)
    requires Planned(es, p)
    ensures AllEntries(DirBlocks(es, p))
  {
  }

  /** The directory as the reader decodes it, unused entries included. */
  ghost function StoredDir(es: seq<Entry>, p: Plan): (d: seq<DirEntry>)
    requires Planned(es, p)
    ensures |d| == p.Slots()
  {
    DirBlocksAreEntries(es, p);
    DecodeAll(DirBlocks(es, p), p.major)
  }

  lemma {:induction false} DirBlockDecodes(es: seq<Entry>, p: Plan, i: nat)
    requires Planned(es, p) && i < |es|
    ensures DecodeEntry(DirBlock(es, p, i), p.major) == DirOf(es, p, i)
  {
    DirOfFits(es, p, i);
    EntryKept(DirBlock(es, p, i), DirOf(es, p, i), p.major);
  }

  lemma {:induction false} StoredDirIs(es: seq<Entry>, p: Plan, i: nat)
    requires Planned(es, p) && i < |es|
    ensures i < p.Slots() && StoredDir(es, p)[i] == DirOf(es, p, i)
  {
    SlotsCover(p);
    DirBlocksAreEntries(es, p);
    DirBlockDecodes(es, p, i);
    DecodeAllAt(DirBlocks(es, p), p.major, i);
  }

  lemma {:induction false} DirectoryReads(pkg: Package, es: seq<Entry>, p: Plan)
    requires Planned(es, p) && pkg.Valid() && pkg.header.major == p.major && |pkg.source| == SectorStart(p.major, p.Total())
    requires HoldsAt(pkg.source, SectorStart(p.major, p.DirStart()), DirRegion(es, p))
    requires pkg.header.firstDir == p.DirStart()
    requires Solo(pkg.Fat(), pkg.Count(), p.DirStart()) == Some(Range(p.DirStart(), p.DirSectors()))
    ensures ParseDirectory(pkg) == Some(StoredDir(es, p))
  {
    RunWhole(p.major, p.DirStart(), p.DirSectors(), p.Total());
    DirBlocksAreEntries(es, p);
    BlocksBack(pkg.source, SectorStart(p.major, p.DirStart()), DirBlocks(es, p));
    BlocksJoin(pkg, p.DirStart(), p.DirSectors());
  }

  // ── The whole file ─────────────────────────────────────────

  /** The output entries of a tree: the root, then everything below it. */
  function EntriesOf(root: Tree): (es: seq<Entry>)
    requires root.Dir?
    ensures |es| == 1 + SizeAll(root.kids)
  {
    [Entry(root.meta, true, [], NO_STREAM, NO_STREAM, Shift(1, Middle(0, |root.kids|)))] + Flatten(root.kids, 1)
  }

  lemma {:induction false} StoredRoot(root: Tree, p: Plan)
    requires root.Dir? && Planned(EntriesOf(root), p)
    ensures Stored(StoredDir(EntriesOf(root), p), root.kids, 1)
  {
    var es := EntriesOf(root);
    var flat := Flatten(root.kids, 1);
    SlotsCover(p);
    forall i | 0 <= i < |flat| ensures Encodes(StoredDir(es, p)[1 + i], flat[i]) {
      StoredDirIs(es, p, 1 + i);
      assert es[1 + i] == flat[i];
    }
  }

  /** What parsing a written file delivers. */
  ghost predicate Parsed(pkg: Package, img: Buffer, root: Tree, seed: Seed, p: Plan)
    requires root.Dir? && Planned(EntriesOf(root), p)
  {
    var es := EntriesOf(root);
    && pkg.Valid() && pkg.source == img && pkg.header == HeaderOf(p, seed.minor) && pkg.Count() == p.Total()
    && pkg.Fat() == FatTable(es, p) && pkg.miniFat == MiniTable(es, p)
    && pkg.miniStart == (if p.minis == 0 then END_OF_CHAIN else p.streams) && pkg.miniSize == p.minis * MINI_SECTOR_SIZE
    && pkg.root.meta == root.meta && pkg.root.isStorage
    && MirrorsAll(StoredDir(es, p), pkg.root.children, root.kids, 1) && pkg.root.treeRoot == Middle(0, |root.kids|)
  }

  /** The root and its tree, read from a directory that holds them. */
  lemma {:induction false} RootReads(pkg: Package, dir: seq<DirEntry>, kids: seq<Tree>)
    requires Ready(dir, kids, 1, 1) && |dir| > 0 && dir[0].kind == KIND_ROOT && dir[0].child == Shift(1, Middle(0, |kids|))
    ensures var r := BuildRoot(pkg, dir);
      && r.Some?
      && r.value == pkg.(miniStart := dir[0].start, miniSize := dir[0].size, root := r.value.root)
      && r.value.root.meta == dir[0].meta && r.value.root.isStorage
      && MirrorsAll(dir, r.value.root.children, kids, 1) && r.value.root.treeRoot == Middle(0, |kids|)
  {
    ReadsBack(dir, kids, 1, 1, Positions(1, |dir| - 1));
  }

  lemma {:induction false} RootReady(root: Tree, p: Plan)
    requires root.Dir? && Planned(EntriesOf(root), p) && 1 + Nesting(root.kids, |root.kids|) <= MAX_STORAGE_DEPTH
    ensures Ready(StoredDir(EntriesOf(root), p), root.kids, 1, 1)
  {
    StoredRoot(root, p);
  }

  /** The header, the list of allocation index sectors and the table they hold. */
  lemma {:induction false} TablesRead(img: Buffer, p: Plan, h: Header, fat: seq<nat>) returns (pkg: Package)
    requires DifatHeld(img, p) && |img| >= 512 && Words(img, 76, HEADER_DIFAT_ENTRIES) == HeaderList(p)
    requires h.major == p.major && h.difatSectors == p.difat && (p.difat > 0 ==> h.firstDifat == p.DifatStart())
    requires Words32(fat) && |fat| == p.fat * p.Per() && HoldsAt(img, SectorStart(p.major, p.FatStart()), Encode32(fat))
    ensures ListedOnce(Range(p.FatStart(), p.fat), p.major, |img|)
    ensures BuildFat(img, h) == Some(Range(p.FatStart(), p.fat)) && pkg == Tables(img, h, Range(p.FatStart(), p.fat))
    ensures pkg.Fat() == fat && pkg.Count() == p.Total()
  {
    FatListReads(img, p, h);
    pkg := Tables(img, h, Range(p.FatStart(), p.fat));
    FatReads(pkg, p.FatStart(), fat);
    CountOfWhole(p.major, p.Total());
  }

  lemma {:induction false} WrittenIndexes(img: Buffer, es: seq<Entry>, seed: Seed, p: Plan)
    requires Written(img, es, seed, p)
    ensures Words32(FatTable(es, p)) && |FatTable(es, p)| == p.fat * p.Per()
    ensures HoldsAt(img, SectorStart(p.major, p.FatStart()), Encode32(FatTable(es, p)))
  {
    FatTableFits(es, p);
    FatTableSize(es, p);
  }

  lemma {:induction false} WrittenDifat(img: Buffer, es: seq<Entry>, seed: Seed, p: Plan)
    requires Written(img, es, seed, p)
    ensures DifatHeld(img, p)
  {
    ListsFit(p);
    SolvedCovers(p);
  }

  lemma {:induction false} WrittenMini(img: Buffer, es: seq<Entry>, seed: Seed, p: Plan)
    requires Written(img, es, seed, p)
    ensures Words32(MiniTable(es, p)) && |MiniTable(es, p)| == p.MiniIndexSectors() * p.Per()
    ensures HoldsAt(img, SectorStart(p.major, p.MiniIndexStart()), Encode32(MiniTable(es, p)))
  {
    MiniTableFits(es, p);
  }

  lemma {:induction false} MiniRead(pkg: Package, es: seq<Entry>, p: Plan, minor: nat)
    requires Planned(es, p) && pkg.Valid() && pkg.Count() == p.Total() && |pkg.source| == SectorStart(p.major, p.Total())
    requires pkg.header == HeaderOf(p, minor) && pkg.Fat() == FatTable(es, p)
    requires Words32(MiniTable(es, p)) && |MiniTable(es, p)| == p.MiniIndexSectors() * p.Per()
    requires HoldsAt(pkg.source, SectorStart(p.major, p.MiniIndexStart()), Encode32(MiniTable(es, p)))
    ensures BuildMiniFat(pkg) == Some(MiniTable(es, p))
  {
    if p.MiniIndexSectors() > 0 { RegionChain(es, p, 2); }
    MiniIndexReads(pkg, p, MiniTable(es, p));
  }

  lemma {:induction false} DirRead(pkg: Package, es: seq<Entry>, p: Plan, minor: nat)
    requires Planned(es, p) && pkg.Valid() && pkg.Count() == p.Total() && |pkg.source| == SectorStart(p.major, p.Total())
    requires pkg.header == HeaderOf(p, minor) && pkg.Fat() == FatTable(es, p)
    requires HoldsAt(pkg.source, SectorStart(p.major, p.DirStart()), DirRegion(es, p))
    ensures ParseDirectory(pkg) == Some(StoredDir(es, p))
  {
    DirChain(es, p);
    DirectoryReads(pkg, es, p);
  }

  lemma {:induction false} DirChain(es: seq<Entry>, p: Plan)
    requires Planned(es, p)
    ensures Solo(FatTable(es, p), p.Total(), p.DirStart()) == Some(Range(p.DirStart(), p.DirSectors()))
  {
    assert p.DirSectors() > 0;
    RegionChain(es, p, 3);
  }

  /** Everything before the tree is read back as it was written. */
  lemma {:induction false} TablesOfWritten(img: Buffer, es: seq<Entry>, seed: Seed, p: Plan) returns (pkg: Package)
    requires Written(img, es, seed, p)
    ensures |img| >= 512 && SeedOf(img, HeaderOf(p, seed.minor)) == seed
    ensures pkg.Valid() && pkg.source == img && pkg.header == HeaderOf(p, seed.minor)
    ensures pkg.Count() == p.Total() && pkg.Fat() == FatTable(es, p)
    ensures Parse(img) == BuildRoot(pkg.(miniFat := MiniTable(es, p)), StoredDir(es, p))
  {
    HeaderReads(img, es, seed, p);
    WrittenIndexes(img, es, seed, p);
    WrittenDifat(img, es, seed, p);
    WrittenMini(img, es, seed, p);
    pkg := TablesRead(img, p, HeaderOf(p, seed.minor), FatTable(es, p));
    MiniRead(pkg, es, p, seed.minor);
    DirRead(pkg, es, p, seed.minor);
  }

  lemma {:induction false} RootRead(pkg: Package, root: Tree, p: Plan)
    requires root.Dir? && Planned(EntriesOf(root), p) && 1 + Nesting(root.kids, |root.kids|) <= MAX_STORAGE_DEPTH
    ensures var es := EntriesOf(root); var r := BuildRoot(pkg, StoredDir(es, p));
      && r.Some?
      && r.value == pkg.(miniStart := if p.minis == 0 then END_OF_CHAIN else p.streams, miniSize := p.minis * MINI_SECTOR_SIZE, root := r.value.root)
      && r.value.root.meta == root.meta && r.value.root.isStorage
      && MirrorsAll(StoredDir(es, p), r.value.root.children, root.kids, 1) && r.value.root.treeRoot == Middle(0, |root.kids|)
  {
    StoredDirIs(EntriesOf(root), p, 0);
    RootReady(root, p);
    RootReads(pkg, StoredDir(EntriesOf(root), p), root.kids);
  }

  /** Parsing what the writer serialised succeeds and delivers the tree it was given. */
  lemma {:induction false} ParseBack(img: Buffer, root: Tree, seed: Seed, p: Plan)
    requires root.Dir? && Written(img, EntriesOf(root), seed, p) && 1 + Nesting(root.kids, |root.kids|) <= MAX_STORAGE_DEPTH
    ensures Parse(img).Some? && Parsed(Parse(img).value, img, root, seed, p)
    ensures |img| >= 512 && SeedOf(img, Parse(img).value.header) == seed
  {
    var es := EntriesOf(root);
    var pkg := TablesOfWritten(img, es, seed, p);
    RootRead(pkg.(miniFat := MiniTable(es, p)), root, p);
    SameFat(pkg, Parse(img).value);
  }

  /** The FAT depends only on the bytes and the list of its sectors. */
  lemma {:induction false} SameFat(a: Package, b: Package)
    requires a.Valid() && a.source == b.source && a.header == b.header && a.fatSectors == b.fatSectors
    ensures b.Valid() && a.Fat() == b.Fat() && a.Count() == b.Count()
  {
    var f, g := a.Fat(), b.Fat();
    forall i | 0 <= i < |f| ensures f[i] == g[i] {
      assert f[i] == a.FatEntry(i) && g[i] == b.FatEntry(i);
    }
  }
}
