/** The bytes of every stream of a written file, as the reader resolves them. */
module CfbStreams {
  import opened Bytes
  import opened CfbModel
  import opened CfbChains
  import opened CfbDirectory
  import opened CfbResolve
  import opened CfbRuns
  import opened CfbImage
  import opened CfbFile
  import opened CfbTables

  lemma {:induction false} StartOf(pkg: Package, first: nat, i: nat)
    ensures pkg.Start(first + i) == pkg.Start(first) + i * pkg.Unit()
  {
    Distribute(first, i, pkg.Unit());
  }

  lemma {:induction false} AddressesAreRow(pkg: Package, first: nat, count: nat)
    ensures SectorAddresses(pkg, Range(first, count)) == Row(pkg.Start(first), pkg.Unit(), count)
  {
    var a, r := SectorAddresses(pkg, Range(first, count)), Row(pkg.Start(first), pkg.Unit(), count);
    forall i | 0 <= i < count ensures a[i] == r[i] {
      StartOf(pkg, first, i);
      RowAt(pkg.Start(first), pkg.Unit(), count, i);
    }
  }

  /** A stream in `n` units one after another from `base` on is read back. */
  lemma {:induction false} RowBack(source: Buffer, base: nat, unit: nat, data: Buffer)
    requires unit > 0 && HoldsAt(source, base, data)
    ensures Content(source, Gather(Row(base, unit, UnitsFor(|data|, unit)), unit, |data|)) == data
  {
    UnitsBounds(|data|, unit);
    GatherRow(base, unit, UnitsFor(|data|, unit), |data|, source);
  }

  lemma {:induction false} ChunkInside(size: nat, unit: nat, i: nat)
    requires unit > 0 && i < UnitsFor(size, unit)
    ensures i * unit + Chunk(size, unit, i) <= size
  {
    ChunkPositive(size, unit, i);
  }

  // ── Streams in sectors of their own ────────────────────────

  lemma {:induction false} OrdinaryBack(pkg: Package, x: Node, first: nat, data: Buffer)
    requires pkg.Valid() && IsOrdinary(pkg, x) && x.size == |data| && HoldsAt(pkg.source, pkg.Start(first), data)
    requires Solo(pkg.Fat(), pkg.Count(), x.start) == Some(Range(first, UnitsFor(|data|, pkg.Unit())))
    ensures OrdinaryChain(pkg, x) == Some(Range(first, UnitsFor(|data|, pkg.Unit())))
    ensures Alone(pkg, x).Some? && Content(pkg.source, Alone(pkg, x).value) == data
  {
    var unit, count := pkg.Unit(), UnitsFor(|data|, pkg.Unit());
    forall i | 0 <= i < count
      ensures RangeFits(pkg.Start(Range(first, count)[i]), Chunk(x.size, unit, i), |pkg.source|)
    {
      StartOf(pkg, first, i);
      ChunkInside(x.size, unit, i);
    }
    AddressesAreRow(pkg, first, count);
    RowBack(pkg.source, pkg.Start(first), unit, data);
  }

  // ── Streams in the mini stream ─────────────────────────────

  /** The mini stream lies in one run of sectors. */
  ghost predicate OneRun(pkg: Package, first: nat, count: nat)
    requires pkg.Valid()
  {
    Container(pkg) == Some(Range(first, count)) && pkg.miniSize <= count * pkg.Unit()
  }

  lemma {:induction false} MiniAt(pkg: Package, first: nat, count: nat, m: nat)
    requires m * MINI_SECTOR_SIZE / pkg.Unit() < count
    ensures MiniAddress(pkg, Range(first, count), m) == pkg.Start(first) + m * MINI_SECTOR_SIZE
  {
    var k := m * MINI_SECTOR_SIZE / pkg.Unit();
    StartOf(pkg, first, k);
    if pkg.Unit() == 512 {
      assert m * MINI_SECTOR_SIZE == k * 512 + m * MINI_SECTOR_SIZE % 512;
    } else {
      assert m * MINI_SECTOR_SIZE == k * 4096 + m * MINI_SECTOR_SIZE % 4096;
    }
  }

  lemma {:induction false} MinisAreRow(pkg: Package, first: nat, count: nat, from: nat, n: nat)
    requires MinisPlaced(pkg, Range(first, count), Range(from, n))
    ensures MiniAddresses(pkg, Range(first, count), Range(from, n))
         == Row(pkg.Start(first) + from * MINI_SECTOR_SIZE, MINI_SECTOR_SIZE, n)
  {
    var base := pkg.Start(first) + from * MINI_SECTOR_SIZE;
    var a, r := MiniAddresses(pkg, Range(first, count), Range(from, n)), Row(base, MINI_SECTOR_SIZE, n);
    forall i | 0 <= i < n ensures a[i] == r[i] {
      assert Range(from, n)[i] == from + i;
      MiniAt(pkg, first, count, from + i);
      RowAt(base, MINI_SECTOR_SIZE, n, i);
    }
  }

  lemma {:induction false} MiniChainIs(pkg: Package, x: Node, from: nat, n: nat)
    requires n == UnitsFor(x.size, MINI_SECTOR_SIZE) && from * MINI_SECTOR_SIZE + x.size <= pkg.miniSize
    requires Solo(pkg.miniFat, |pkg.miniFat|, x.start) == Some(Range(from, n))
    ensures MiniChain(pkg, x) == Some(Range(from, n))
  {
    forall i | 0 <= i < n
      ensures RangeFits(Range(from, n)[i] * MINI_SECTOR_SIZE, Chunk(x.size, MINI_SECTOR_SIZE, i), pkg.miniSize)
    {
      ChunkInside(x.size, MINI_SECTOR_SIZE, i);
    }
  }

  lemma {:induction false} MiniBack(pkg: Package, x: Node, first: nat, count: nat, from: nat, base: nat, data: Buffer)
    requires pkg.Valid() && IsMini(pkg, x) && x.size == |data| && OneRun(pkg, first, count)
    requires HoldsAt(pkg.source, base, data) && base == pkg.Start(first) + from * MINI_SECTOR_SIZE
    requires MiniChain(pkg, x) == Some(Range(from, UnitsFor(|data|, MINI_SECTOR_SIZE)))
    ensures Alone(pkg, x).Some? && Content(pkg.source, Alone(pkg, x).value) == data
  {
    MinisArePlaced(pkg, x);
    MinisAreRow(pkg, first, count, from, UnitsFor(|data|, MINI_SECTOR_SIZE));
    RowBack(pkg.source, base, MINI_SECTOR_SIZE, data);
  }

  lemma {:induction false} ContainerIs(pkg: Package, first: nat, count: nat, total: nat)
    requires pkg.Valid() && pkg.miniSize > 0 && count == UnitsFor(pkg.miniSize, pkg.Unit())
    requires |pkg.source| == pkg.Start(total) && first + count <= total
    requires Solo(pkg.Fat(), pkg.Count(), pkg.miniStart) == Some(Range(first, count))
    ensures OneRun(pkg, first, count)
  {
    UnitsBounds(pkg.miniSize, pkg.Unit());
    forall i | 0 <= i < count
      ensures RangeFits(pkg.Start(Range(first, count)[i]), Chunk(pkg.miniSize, pkg.Unit(), i), |pkg.source|)
    {
      WholeInside(pkg.header.major, first + i, total);
    }
  }

  // ── A written file ─────────────────────────────────────────

  /** The tables of a written file as its streams need them, read into a package. */
  ghost predicate Serves(pkg: Package, es: seq<Entry>, p: Plan) {
    && Planned(es, p) && pkg.Valid() && pkg.header.cutoff == MINI_STREAM_CUTOFF && pkg.header.major == p.major
    && pkg.Count() == p.Total() && |pkg.source| == SectorStart(p.major, p.Total())
    && pkg.Fat() == FatTable(es, p) && pkg.miniFat == MiniTable(es, p)
    && pkg.miniStart == (if p.minis == 0 then END_OF_CHAIN else p.streams) && pkg.miniSize == p.minis * MINI_SECTOR_SIZE
    && HoldsAt(pkg.source, pkg.Start(0), DataRegion(es, false, p.major))
    && HoldsAt(pkg.source, pkg.Start(p.streams), MiniRegion(es, p))
  }

  /** The node of the i-th entry, a stream. */
  ghost predicate StreamAt(x: Node, es: seq<Entry>, p: Plan, i: nat) {
    && i < |es| && !es[i].isStorage && !x.isStorage
    && x.start == StreamStart(es, i, p.major) && x.size == |es[i].data|
  }

  lemma {:induction false} FromTheFirst(major: nat, n: nat)
    ensures SectorStart(major, 0) + n * SectorSize(major) == SectorStart(major, n)
  {
  }

  lemma {:induction false} OrdinaryData(source: Buffer, es: seq<Entry>, i: nat, major: nat)
    requires i < |es| && InClass(es[i], false) && HoldsAt(source, SectorStart(major, 0), DataRegion(es, false, major))
    ensures HoldsAt(source, SectorStart(major, Sum(es, i, false, major)), es[i].data)
  {
    DataAt(es, i, false, major);
    var n := Sum(es, i, false, major);
    HoldsWithin(source, SectorStart(major, 0), DataRegion(es, false, major), n * SectorSize(major), es[i].data);
    FromTheFirst(major, n);
    HoldsThere(source, SectorStart(major, 0) + n * SectorSize(major), SectorStart(major, n), es[i].data);
  }

  function MiniPlace(es: seq<Entry>, p: Plan, i: nat): nat
    requires i < |es|
  {
    SectorStart(p.major, p.streams) + Sum(es, i, true, p.major) * MINI_SECTOR_SIZE
  }

  lemma {:induction false} MiniData(source: Buffer, es: seq<Entry>, p: Plan, i: nat)
    requires i < |es| && InClass(es[i], true) && p.minis == Sum(es, |es|, true, p.major)
    requires HoldsAt(source, SectorStart(p.major, p.streams), MiniRegion(es, p))
    ensures Sum(es, i, true, p.major) * MINI_SECTOR_SIZE + |es[i].data| <= p.minis * MINI_SECTOR_SIZE
    ensures HoldsAt(source, MiniPlace(es, p, i), es[i].data)
  {
    var at := Sum(es, i, true, p.major) * MINI_SECTOR_SIZE;
    DataAt(es, i, true, p.major);
    SliceOfPrefix(DataRegion(es, true, p.major), MiniRegion(es, p)[p.minis * MINI_SECTOR_SIZE..], at, at + |es[i].data|);
    HoldsWithin(source, SectorStart(p.major, p.streams), MiniRegion(es, p), at, es[i].data);
  }

  lemma {:induction false} OrdinaryServed(pkg: Package, es: seq<Entry>, p: Plan, x: Node, i: nat)
    requires Serves(pkg, es, p) && StreamAt(x, es, p, i) && InClass(es[i], false)
    ensures IsOrdinary(pkg, x)
    ensures OrdinaryChain(pkg, x) == Some(Range(Sum(es, i, false, p.major), Weight(es[i], false, p.major)))
    ensures Alone(pkg, x).Some? && Content(pkg.source, Alone(pkg, x).value) == es[i].data
  {
    StreamChain(es, p, i);
    OrdinaryData(pkg.source, es, i, p.major);
    OrdinaryBack(pkg, x, Sum(es, i, false, p.major), es[i].data);
  }

  lemma {:induction false} MiniStreamRun(es: seq<Entry>, p: Plan)
    requires Planned(es, p) && p.minis > 0
    ensures Solo(FatTable(es, p), p.Total(), p.streams) == Some(Range(p.streams, p.MiniSectors()))
    ensures p.streams + p.MiniSectors() <= p.Total()
  {
    assert p.MiniSectors() > 0;
    RegionChain(es, p, 1);
  }

  lemma {:induction false} MiniStreamServed(pkg: Package, es: seq<Entry>, p: Plan)
    requires Serves(pkg, es, p) && p.minis > 0
    ensures OneRun(pkg, p.streams, p.MiniSectors())
  {
    MiniStreamRun(es, p);
    ContainerIs(pkg, p.streams, p.MiniSectors(), p.Total());
  }

  lemma {:induction false} MiniChainServed(pkg: Package, es: seq<Entry>, p: Plan, x: Node, i: nat)
    requires Serves(pkg, es, p) && StreamAt(x, es, p, i) && InClass(es[i], true)
    ensures IsMini(pkg, x) && x.size == |es[i].data|
    ensures MiniChain(pkg, x) == Some(Range(Sum(es, i, true, p.major), UnitsFor(|es[i].data|, MINI_SECTOR_SIZE)))
    ensures HoldsAt(pkg.source, MiniPlace(es, p, i), es[i].data)
  {
    MiniData(pkg.source, es, p, i);
    MiniStreamChain(es, p, i);
    MiniChainIs(pkg, x, Sum(es, i, true, p.major), Weight(es[i], true, p.major));
  }

  lemma {:induction false} SomeMinis(es: seq<Entry>, p: Plan, i: nat)
    requires Planned(es, p) && i < |es| && InClass(es[i], true)
    ensures p.minis > 0
  {
    SumStep(es, i, true, p.major);
  }

  lemma {:induction false} MiniServed(pkg: Package, es: seq<Entry>, p: Plan, x: Node, i: nat)
    requires Serves(pkg, es, p) && StreamAt(x, es, p, i) && InClass(es[i], true)
    ensures IsMini(pkg, x) && OneRun(pkg, p.streams, p.MiniSectors())
    ensures MiniChain(pkg, x) == Some(Range(Sum(es, i, true, p.major), Weight(es[i], true, p.major)))
    ensures Alone(pkg, x).Some? && Content(pkg.source, Alone(pkg, x).value) == es[i].data
  {
    MiniChainServed(pkg, es, p, x, i);
    SomeMinis(es, p, i);
    MiniStreamServed(pkg, es, p);
    MiniBack(pkg, x, p.streams, p.MiniSectors(), Sum(es, i, true, p.major), MiniPlace(es, p, i), es[i].data);
  }

  /** Every stream of a written file reads back its bytes. */
  lemma {:induction false} StreamServed(pkg: Package, es: seq<Entry>, p: Plan, x: Node, i: nat)
    requires Serves(pkg, es, p) && StreamAt(x, es, p, i)
    ensures Alone(pkg, x).Some? && Content(pkg.source, Alone(pkg, x).value) == es[i].data
  {
    if InClass(es[i], true) { MiniServed(pkg, es, p, x, i); }
    else if InClass(es[i], false) { OrdinaryServed(pkg, es, p, x, i); }
  }

  lemma {:induction false} RangesApart(a: nat, m: nat, b: nat, n: nat)
    requires a + m <= b
    ensures Disjoint(Range(a, m), Range(b, n)) && Disjoint(Range(b, n), Range(a, m))
  {
  }

  lemma {:induction false} RunsFollow(es: seq<Entry>, i: nat, j: nat, mini: bool, major: nat)
    requires i < j < |es|
    ensures Sum(es, i, mini, major) + Weight(es[i], mini, major) <= Sum(es, j, mini, major)
  {
    SumStep(es, i, mini, major);
    CfbImage.SumMonotone(es, i + 1, j, mini, major);
  }

  lemma {:induction false} RunsApart(es: seq<Entry>, i: nat, m: nat, j: nat, n: nat, mini: bool, major: nat)
    requires i < j < |es| && m == Weight(es[i], mini, major)
    ensures Disjoint(Range(Sum(es, i, mini, major), m), Range(Sum(es, j, mini, major), n))
  {
    RunsFollow(es, i, j, mini, major);
    RangesApart(Sum(es, i, mini, major), m, Sum(es, j, mini, major), n);
  }

  lemma {:induction false} RunBeforeMini(es: seq<Entry>, p: Plan, i: nat)
    requires i < |es| && p.streams == Sum(es, |es|, false, p.major)
    ensures Disjoint(Range(Sum(es, i, false, p.major), Weight(es[i], false, p.major)), Range(p.streams, p.MiniSectors()))
  {
    SumStep(es, i, false, p.major);
    RangesApart(Sum(es, i, false, p.major), Weight(es[i], false, p.major), p.streams, p.MiniSectors());
  }

  /** No two of its streams share a unit. */
  lemma {:induction false} StreamsApart(pkg: Package, es: seq<Entry>, p: Plan, x: Node, i: nat, y: Node, j: nat)
    requires Serves(pkg, es, p) && StreamAt(x, es, p, i) && StreamAt(y, es, p, j) && i < j
    ensures Alone(pkg, x).Some? && Alone(pkg, y).Some? && Apart(pkg, x, y)
  {
    StreamServed(pkg, es, p, x, i);
    StreamServed(pkg, es, p, y, j);
    RunsApart(es, i, Weight(es[i], true, p.major), j, Weight(es[j], true, p.major), true, p.major);
    RunsApart(es, i, Weight(es[i], false, p.major), j, Weight(es[j], false, p.major), false, p.major);
    RunBeforeMini(es, p, i);
    RunBeforeMini(es, p, j);
    UnitsOf(pkg, es, p, x, i);
    UnitsOf(pkg, es, p, y, j);
  }

  lemma {:induction false} UnitsOf(pkg: Package, es: seq<Entry>, p: Plan, x: Node, i: nat)
    requires Serves(pkg, es, p) && StreamAt(x, es, p, i)
    ensures Alone(pkg, x).Some? && (IsMini(pkg, x) <==> InClass(es[i], true))
    ensures IsMini(pkg, x) ==> Minis(pkg, x) == Range(Sum(es, i, true, p.major), Weight(es[i], true, p.major))
    ensures IsMini(pkg, x) ==> Sectors(pkg, x) == Range(p.streams, p.MiniSectors())
    ensures !IsMini(pkg, x) ==> Sectors(pkg, x) == Range(Sum(es, i, false, p.major), Weight(es[i], false, p.major))
  {
    if InClass(es[i], true) { MiniServed(pkg, es, p, x, i); }
    else if InClass(es[i], false) { OrdinaryServed(pkg, es, p, x, i); }
  }
}
