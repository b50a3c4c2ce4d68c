/** Reading back the tables of a written file: header, allocation index, chains, mini index. */
module CfbTables {
  import opened Bytes
  import opened CfbModel
  import opened CfbChains
  import opened CfbDirectory
  import opened CfbLayout
  import opened CfbReader
  import opened CfbEncoding
  import opened CfbImage
  import opened CfbFile

  ghost predicate Written(img: Buffer, es: seq<Entry>, seed: Seed, p: Plan) {
    Planned(es, p) && SeedFits(seed) && seed.major == p.major && Laid(img, es, seed, p)
  }

  lemma {:induction false} HeaderReads(img: Buffer, es: seq<Entry>, seed: Seed, p: Plan)
    requires Written(img, es, seed, p)
    ensures |img| >= 512
    ensures ParseHeader(img) == Some(HeaderOf(p, seed.minor)) && SeedOf(img, HeaderOf(p, seed.minor)) == seed
    ensures Words(img, 76, HEADER_DIFAT_ENTRIES) == HeaderList(p)
  {
    HeaderOfFits(es, p, seed.minor);
    ListsFit(p);
    HeaderBack(img, seed, HeaderOf(p, seed.minor), p.DirSectors(), p.fat, HeaderList(p));
  }

  // ── The list of allocation index sectors ───────────────────

  /** The allocation index sectors from the n-th on. */
  function Rest(p: Plan, n: nat): seq<nat> {
    if n >= p.fat then [] else Range(p.FatStart() + n, p.fat - n)
  }

  lemma {:induction false} RestStep(p: Plan, n: nat)
    requires n < p.fat
    ensures Rest(p, n) == [p.FatStart() + n] + Rest(p, n + 1)
  {
  }

  /** A stretch of the list, cut at the first free mark, then the rest. */
  lemma {:induction false} ListedThenRest(p: Plan, words: seq<nat>, first: nat)
    requires p.Total() <= MAX_SECTORS
    requires forall i :: 0 <= i < |words| ==> words[i] == ListedFat(p, first + i)
    ensures Listed(words) + Rest(p, first + |words|) == Rest(p, first)
    decreases |words|
  {
    if words == [] || first >= p.fat {
      if words != [] { assert words[0] == ListedFat(p, first + 0); }
      assert Listed(words) == [];
    } else {
      assert words[0] == ListedFat(p, first + 0);
      forall i | 0 <= i < |words[1..]| ensures words[1..][i] == ListedFat(p, first + 1 + i) {
        assert words[1..][i] == words[i + 1];
      }
      ListedThenRest(p, words[1..], first + 1);
      RestStep(p, first);
      assert ([words[0]] + Listed(words[1..])) + Rest(p, first + |words|) == [words[0]] + (Listed(words[1..]) + Rest(p, first + |words|));
    }
  }

  lemma {:induction false} WholeInside(major: nat, sector: nat, total: nat)
    requires sector < total
    ensures SectorStart(major, sector) + SectorSize(major) <= SectorStart(major, total)
    ensures WholeSector(major, sector, SectorStart(major, total))
  {
    CountOfWhole(major, total);
    if SectorSize(major) == 512 { } else { }
  }

  lemma {:induction false} SectorInTable(major: nat, start: nat, k: nat)
    ensures SectorStart(major, start + k) == SectorStart(major, start) + 4 * (k * (SectorSize(major) / 4))
  {
    if SectorSize(major) == 512 { } else { }
  }

  /** Words of a table in the file, from any of them on. */
  lemma {:induction false} TableWords(img: Buffer, at: nat, t: seq<nat>, from: nat, n: nat)
    requires Words32(t) && HoldsAt(img, at, Encode32(t)) && from + n <= |t|
    ensures at + 4 * from + 4 * n <= |img| && Words(img, at + 4 * from, n) == t[from..from + n]
  {
    forall j | 0 <= j < n ensures U32(img, at + 4 * from + 4 * j) == t[from + j] {
      ReadTable(img, at, t, from + j);
    }
  }

  lemma {:induction false} TableSector(img: Buffer, major: nat, start: nat, t: seq<nat>, k: nat)
    requires Words32(t) && HoldsAt(img, SectorStart(major, start), Encode32(t))
    requires var per := SectorSize(major) / 4; k * per + per <= |t|
    ensures var per := SectorSize(major) / 4;
      && SectorStart(major, start + k) + 4 * per <= |img|
      && Words(img, SectorStart(major, start + k), per) == t[k * per..k * per + per]
  {
    var per := SectorSize(major) / 4;
    SectorInTable(major, start, k);
    TableWords(img, SectorStart(major, start), t, k * per, per);
  }

  /** The extended index is in its place. */
  ghost predicate DifatHeld(img: Buffer, p: Plan) {
    && p.Total() <= MAX_SECTORS && |img| == SectorStart(p.major, p.Total()) && p.fat <= ListedBefore(p, p.difat)
    && Words32(DifatTable(p)) && HoldsAt(img, SectorStart(p.major, p.DifatStart()), Encode32(DifatTable(p)))
  }

  lemma {:induction false} DifatWords(img: Buffer, p: Plan, d: nat)
    requires DifatHeld(img, p) && d < p.difat
    ensures WholeSector(p.major, p.DifatStart() + d, |img|)
    ensures Words(img, SectorStart(p.major, p.DifatStart() + d), p.Per()) == DifatSector(p, d)
  {
    WholeInside(p.major, p.DifatStart() + d, p.Total());
    DifatSlice(p, d);
    TableSector(img, p.major, p.DifatStart(), DifatTable(p), d);
  }

  lemma {:induction false} DifatSlice(p: Plan, d: nat)
    requires d < p.difat
    ensures d * p.Per() + p.Per() <= |DifatTable(p)| && DifatTable(p)[d * p.Per()..d * p.Per() + p.Per()] == DifatSector(p, d)
  {
    UniformSlice(DifatParts(p), p.Per(), d);
  }

  /** Number listed before the d-th extended index sector. */
  function ListedBefore(p: Plan, d: nat): nat {
    HEADER_DIFAT_ENTRIES + d * (p.Per() - 1)
  }

  /** What the reader lists from the d-th extended index sector on. */
  lemma {:induction false} DifatReads(img: Buffer, p: Plan, d: nat, seen: set<nat>)
    requires DifatHeld(img, p) && d <= p.difat && 0 < p.difat
    requires forall s :: s in seen ==> s < p.DifatStart() + d
    ensures ListedByDifat(img, p.major, if d < p.difat then p.DifatStart() + d else END_OF_CHAIN, p.difat - d, seen) == Some(Rest(p, ListedBefore(p, d)))
    decreases p.difat - d
  {
    hide Words, Listed, ListedByDifat, Rest, DifatTable, Encode32;
    if d < p.difat {
      DifatReads(img, p, d + 1, seen + {p.DifatStart() + d});
      DifatStep(img, p, d, seen);
    } else {
      NothingLeft(img, p, seen);
    }
  }

  lemma {:induction false} NothingLeft(img: Buffer, p: Plan, seen: set<nat>)
    requires p.fat <= ListedBefore(p, p.difat)
    ensures ListedByDifat(img, p.major, END_OF_CHAIN, 0, seen) == Some(Rest(p, ListedBefore(p, p.difat)))
  {
  }

  lemma {:induction false} DifatStep(img: Buffer, p: Plan, d: nat, seen: set<nat>)
    requires DifatHeld(img, p) && d < p.difat && p.DifatStart() + d !in seen
    requires ListedByDifat(img, p.major, if d + 1 < p.difat then p.DifatStart() + d + 1 else END_OF_CHAIN, p.difat - d - 1,
                           seen + {p.DifatStart() + d}) == Some(Rest(p, ListedBefore(p, d + 1)))
    ensures ListedByDifat(img, p.major, p.DifatStart() + d, p.difat - d, seen) == Some(Rest(p, ListedBefore(p, d)))
  {
    DifatWords(img, p, d);
    DifatJoin(p, d);
  }

  lemma {:induction false} DifatJoin(p: Plan, d: nat)
    requires p.Total() <= MAX_SECTORS && d < p.difat
    ensures DifatSector(p, d)[..p.Per() - 1] == DifatListed(p, d)
    ensures Listed(DifatListed(p, d)) + Rest(p, ListedBefore(p, d + 1)) == Rest(p, ListedBefore(p, d))
  {
    ListedThenRest(p, DifatListed(p, d), ListedBefore(p, d));
    assert ListedBefore(p, d) + (p.Per() - 1) == ListedBefore(p, d + 1);
  }

  lemma {:induction false} FatListedOnce(p: Plan)
    ensures ListedOnce(Range(p.FatStart(), p.fat), p.major, SectorStart(p.major, p.Total()))
  {
    var list := Range(p.FatStart(), p.fat);
    forall i | 0 <= i < p.fat ensures WholeSector(p.major, list[i], SectorStart(p.major, p.Total())) {
      WholeInside(p.major, p.FatStart() + i, p.Total());
    }
  }

  /** The reader recovers exactly the run of allocation index sectors, through the header's slots and
      the chained extended index. */
  lemma {:induction false} FatListReads(img: Buffer, p: Plan, h: Header)
    requires DifatHeld(img, p) && |img| >= 512 && Words(img, 76, HEADER_DIFAT_ENTRIES) == HeaderList(p)
    requires h.major == p.major && h.difatSectors == p.difat && (p.difat > 0 ==> h.firstDifat == p.DifatStart())
    ensures BuildFat(img, h) == Some(Range(p.FatStart(), p.fat))
    ensures ListedOnce(Range(p.FatStart(), p.fat), p.major, |img|)
  {
    HeaderThenDifat(p);
    if p.difat > 0 {
      DifatReads(img, p, 0, {});
    }
    FatListedOnce(p);
  }

  lemma {:induction false} HeaderThenDifat(p: Plan)
    requires p.Total() <= MAX_SECTORS
    ensures Listed(HeaderList(p)) + Rest(p, ListedBefore(p, 0)) == Range(p.FatStart(), p.fat)
    ensures p.difat == 0 && p.fat <= ListedBefore(p, p.difat) ==> Rest(p, ListedBefore(p, 0)) == []
  {
    ListedThenRest(p, HeaderList(p), 0);
    assert Rest(p, 0) == Range(p.FatStart(), p.fat);
  }

  // ── The allocation index itself ────────────────────────────

  lemma {:induction false} FatAddress(major: nat, start: nat, i: nat)
    ensures var per := SectorSize(major) / 4;
      SectorStart(major, start + i / per) + i % per * 4 == SectorStart(major, start) + 4 * i
  {
    if SectorSize(major) == 512 {
      assert i == i / 128 * 128 + i % 128;
    } else {
      assert i == i / 1024 * 1024 + i % 1024;
    }
  }

  lemma {:induction false} FatEntryReads(pkg: Package, start: nat, t: seq<nat>, i: nat)
    requires pkg.Valid() && Words32(t) && HoldsAt(pkg.source, pkg.Start(start), Encode32(t))
    requires i < |t| == |pkg.fatSectors| * (pkg.Unit() / 4)
    requires forall k :: 0 <= k < |pkg.fatSectors| ==> pkg.fatSectors[k] == start + k
    ensures pkg.FatEntry(i) == t[i]
  {
    FatIndex(i, pkg.Unit() / 4, |pkg.fatSectors|);
    FatAddress(pkg.header.major, start, i);
    ReadTable(pkg.source, pkg.Start(start), t, i);
  }

  /** The package that lists those sectors reads the table they hold. */
  lemma {:induction false} FatReads(pkg: Package, start: nat, t: seq<nat>)
    requires pkg.Valid() && Words32(t) && HoldsAt(pkg.source, pkg.Start(start), Encode32(t))
    requires |t| == |pkg.fatSectors| * (pkg.Unit() / 4)
    requires forall k :: 0 <= k < |pkg.fatSectors| ==> pkg.fatSectors[k] == start + k
    ensures pkg.Fat() == t
  {
    var fat := pkg.Fat();
    forall i | 0 <= i < |t| ensures fat[i] == t[i] {
      FatEntryReads(pkg, start, t, i);
    }
  }

  // ── Chains ─────────────────────────────────────────────────

  /** A run written into a table is a chain through its units. */
  lemma {:induction false} RunIsChain(table: seq<nat>, n: nat, first: nat, count: nat, i: nat)
    requires i <= count && first + count <= |table| && first + count <= n && first + count <= END_OF_CHAIN
    requires table[first..first + count] == RunOf(first, count)
    ensures IsChain(table, n, if i < count then first + i else END_OF_CHAIN, Range(first + i, count - i))
    decreases count - i
  {
    if i < count {
      RunIsChain(table, n, first, count, i + 1);
      assert table[first + i] == table[first..first + count][i];
      assert Range(first + i, count - i)[1..] == Range(first + i + 1, count - i - 1);
    }
  }

  /** So following it from its first unit gives the run. */
  lemma {:induction false} RunFollowed(table: seq<nat>, n: nat, first: nat, count: nat)
    requires 0 < count && first + count <= |table| && first + count <= n && first + count <= END_OF_CHAIN
    requires table[first..first + count] == RunOf(first, count)
    ensures Solo(table, n, first) == Some(Range(first, count))
  {
    RunIsChain(table, n, first, count, 0);
    SoloComplete(table, n, first, Range(first, count));
  }

  lemma {:induction false} PartAt(es: seq<Entry>, parts: seq<seq<nat>>, i: nat, mini: bool, major: nat)
    requires |parts| == |es| && i < |es| && forall j :: 0 <= j < |es| ==> |parts[j]| == Weight(es[j], mini, major)
    ensures Sum(es, i, mini, major) + |parts[i]| <= |Join(parts)|
    ensures Join(parts)[Sum(es, i, mini, major)..Sum(es, i, mini, major) + |parts[i]|] == parts[i]
  {
    RunLengths(es, parts, i, mini, major);
    JoinSlice(parts, i);
  }

  /** The run of the i-th stream of a class, in the joined runs. */
  lemma {:induction false} StreamRunAt(es: seq<Entry>, i: nat, mini: bool, major: nat, first: nat, count: nat)
    requires i < |es| && first == Sum(es, i, mini, major) && count == Weight(es[i], mini, major)
    ensures first + count <= |StreamRuns(es, mini, major)|
    ensures StreamRuns(es, mini, major)[first..first + count] == RunOf(first, count)
  {
    var parts := RunParts(es, mini, major);
    PartAt(es, parts, i, mini, major);
    RunPartIs(es, |es|, i, mini, major);
  }

  lemma {:induction false} StreamChain(es: seq<Entry>, p: Plan, i: nat)
    requires Planned(es, p) && i < |es| && InClass(es[i], false)
    ensures Solo(FatTable(es, p), p.Total(), Sum(es, i, false, p.major)) == Some(Range(Sum(es, i, false, p.major), Weight(es[i], false, p.major)))
  {
    var first, count := Sum(es, i, false, p.major), Weight(es[i], false, p.major);
    assert first + count <= p.streams && p.streams <= |FatTable(es, p)| && FatTable(es, p)[first..first + count] == RunOf(first, count) by {
      StreamRunAt(es, i, false, p.major, first, count);
      FatPartsFollow(es, p);
      PartSlice(FatParts(es, p), p, 0);
      SliceSlice(FatTable(es, p), 0, p.streams, first, first + count);
    }
    RunFollowed(FatTable(es, p), p.Total(), first, count);
  }

  lemma {:induction false} MiniStreamChain(es: seq<Entry>, p: Plan, i: nat)
    requires Planned(es, p) && i < |es| && InClass(es[i], true)
    ensures Solo(MiniTable(es, p), |MiniTable(es, p)|, Sum(es, i, true, p.major)) == Some(Range(Sum(es, i, true, p.major), Weight(es[i], true, p.major)))
  {
    var first, count := Sum(es, i, true, p.major), Weight(es[i], true, p.major);
    StreamRunAt(es, i, true, p.major, first, count);
    var runs := StreamRuns(es, true, p.major);
    SliceOfPrefix(runs, MiniTable(es, p)[|runs|..], first, first + count);
    assert MiniTable(es, p) == runs + MiniTable(es, p)[|runs|..];
    RunFollowed(MiniTable(es, p), |MiniTable(es, p)|, first, count);
  }

  /** The chains of the mini stream, the mini index and the directory. */
  lemma {:induction false} RegionChain(es: seq<Entry>, p: Plan, k: nat)
    requires Planned(es, p) && 1 <= k <= 3 && RegionStart(p, k) < RegionStart(p, k + 1)
    ensures Solo(FatTable(es, p), p.Total(), RegionStart(p, k)) == Some(Range(RegionStart(p, k), RegionStart(p, k + 1) - RegionStart(p, k)))
  {
    FatPartsFollow(es, p);
    PartSlice(FatParts(es, p), p, k);
    var first, count := RegionStart(p, k), RegionStart(p, k + 1) - RegionStart(p, k);
    assert FatParts(es, p)[k] == RunOf(first, count);
    RunFollowed(FatTable(es, p), p.Total(), first, count);
  }
}
