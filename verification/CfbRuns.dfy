/** Whole sequences of resolutions on one model: no byte is delivered twice, and whether a
    set of streams can be read does not depend on the order of the calls. */
module CfbRuns {
  import opened Bytes
  import opened CfbModel
  import opened CfbChains
  import opened CfbResolve
  import opened Ordering

  // ── The bytes a list of ranges stands for ──────────────────

  ghost predicate Within(extents: seq<Extent>, size: nat) {
    forall k :: 0 <= k < |extents| ==> extents[k].offset + extents[k].length <= size
  }

  ghost predicate Holds(e: Extent, p: nat) {
    e.offset <= p < e.offset + e.length
  }

  ghost predicate Covers(extents: seq<Extent>, p: nat) {
    exists k :: 0 <= k < |extents| && Holds(extents[k], p)
  }

  function Total(extents: seq<Extent>): nat {
    if extents == [] then 0 else Total(extents[..|extents| - 1]) + extents[|extents| - 1].length
  }

  function Piece(source: Buffer, e: Extent): Buffer {
    if e.offset + e.length <= |source| then source[e.offset..e.offset + e.length] else []
  }

  function Pieces(source: Buffer, extents: seq<Extent>): (p: seq<Buffer>)
    ensures |p| == |extents|
  {
    seq(|extents|, k requires 0 <= k < |extents| => Piece(source, extents[k]))
  }

  /** The bytes of the ranges, joined. */
  function Content(source: Buffer, extents: seq<Extent>): Buffer {
    Join(Pieces(source, extents))
  }

  lemma {:induction false} PieceJoin(source: Buffer, base: nat, at: nat, m: nat)
    requires base <= at && at + m <= |source|
    ensures Piece(source, Extent(base, at - base)) + Piece(source, Extent(at, m)) == Piece(source, Extent(base, at + m - base))
  {
  }

  lemma {:induction false} TotalSnoc(init: seq<Extent>, e: Extent)
    ensures Total(init + [e]) == Total(init) + e.length
  {
    assert (init + [e])[..|init|] == init;
  }

  lemma {:induction false} AppendTotal(extents: seq<Extent>, offset: nat, length: nat)
    ensures Total(AppendExtent(extents, offset, length)) == Total(extents) + length
  {
    var n := |extents|;
    if n > 0 && extents[n - 1].offset + extents[n - 1].length == offset {
      var init, e := extents[..n - 1], extents[n - 1];
      assert extents == init + [e];
      assert AppendExtent(extents, offset, length) == init + [Extent(e.offset, e.length + length)];
      TotalSnoc(init, e);
      TotalSnoc(init, Extent(e.offset, e.length + length));
    } else {
      TotalSnoc(extents, Extent(offset, length));
    }
  }

  lemma {:induction false} AppendPieces(extents: seq<Extent>, offset: nat, length: nat, source: Buffer)
    requires Within(extents, |source|) && offset + length <= |source|
    ensures var q := Piece(source, Extent(offset, length)); var ps := Pieces(source, extents); var n := |ps|;
      Pieces(source, AppendExtent(extents, offset, length))
        == if |AppendExtent(extents, offset, length)| == n then ps[..n - 1] + [ps[n - 1] + q] else ps + [q]
  {
    var n := |extents|;
    if n > 0 && extents[n - 1].offset + extents[n - 1].length == offset {
      PieceJoin(source, extents[n - 1].offset, offset, length);
    }
  }

  lemma {:induction false} AppendWithin(extents: seq<Extent>, offset: nat, length: nat, limit: nat)
    requires Within(extents, limit) && offset + length <= limit
    ensures Within(AppendExtent(extents, offset, length), limit)
  {
  }

  lemma {:induction false} AppendContent(extents: seq<Extent>, offset: nat, length: nat, source: Buffer)
    requires Within(extents, |source|) && offset + length <= |source|
    ensures Within(AppendExtent(extents, offset, length), |source|)
    ensures Content(source, AppendExtent(extents, offset, length))
         == Content(source, extents) + Piece(source, Extent(offset, length))
  {
    AppendWithin(extents, offset, length, |source|);
    AppendPieces(extents, offset, length, source);
    var q := Piece(source, Extent(offset, length));
    var ps := Pieces(source, extents);
    var n := |ps|;
    if |AppendExtent(extents, offset, length)| == n {
      JoinGrow(ps[..n - 1], ps[n - 1], q);
      assert ps == ps[..n - 1] + [ps[n - 1]];
    } else {
      JoinSnoc(ps, q);
    }
  }

  lemma {:induction false} AppendCovers(extents: seq<Extent>, offset: nat, length: nat, p: nat)
    requires Covers(AppendExtent(extents, offset, length), p)
    ensures Covers(extents, p) || offset <= p < offset + length
  {
    var a := AppendExtent(extents, offset, length);
    var k :| 0 <= k < |a| && Holds(a[k], p);
    if k < |extents| && !(offset <= p < offset + length) {
      assert Holds(extents[k], p);
    }
  }

  /** Every unit of a stream lies in the source. */
  ghost predicate UnitsFit(addrs: seq<nat>, unit: nat, size: nat, limit: nat) {
    forall i :: 0 <= i < |addrs| ==> addrs[i] + Chunk(size, unit, i) <= limit
  }

  lemma {:induction false} GatherFacts(addrs: seq<nat>, unit: nat, size: nat, source: Buffer)
    requires unit > 0 && UnitsFit(addrs, unit, size, |source|)
    ensures var g := Gather(addrs, unit, size);
      && Within(g, |source|)
      && Total(g) == if |addrs| * unit <= size then |addrs| * unit else size
  {
    if addrs != [] {
      var n := |addrs| - 1;
      GatherFacts(addrs[..n], unit, size, source);
      AppendTotal(Gather(addrs[..n], unit, size), addrs[n], Chunk(size, unit, n));
      AppendContent(Gather(addrs[..n], unit, size), addrs[n], Chunk(size, unit, n), source);
      assert (n + 1) * unit == n * unit + unit;
    }
  }

  lemma {:induction false} GatherCovers(addrs: seq<nat>, unit: nat, size: nat, p: nat) returns (i: nat)
    requires Covers(Gather(addrs, unit, size), p)
    ensures i < |addrs| && addrs[i] <= p < addrs[i] + Chunk(size, unit, i)
  {
    var n := |addrs| - 1;
    AppendCovers(Gather(addrs[..n], unit, size), addrs[n], Chunk(size, unit, n), p);
    if addrs[n] <= p < addrs[n] + Chunk(size, unit, n) {
      i := n;
    } else {
      i := GatherCovers(addrs[..n], unit, size, p);
    }
  }

  /** Addresses of `n` units that lie one after another. */
  function Row(base: nat, unit: nat, n: nat): (a: seq<nat>)
    ensures |a| == n
  {
    if n == 0 then [] else Row(base, unit, n - 1) + [base + (n - 1) * unit]
  }

  lemma {:induction false} RowAt(base: nat, unit: nat, n: nat, i: nat)
    requires i < n
    ensures Row(base, unit, n)[i] == base + i * unit
  {
    if i < n - 1 { RowAt(base, unit, n - 1, i); }
  }

  /** Such units hold one contiguous piece of the source. */
  lemma {:induction false} GatherRow(base: nat, unit: nat, n: nat, size: nat, source: Buffer)
    requires n * unit < size + unit && base + Covered(n, unit, size) <= |source|
    ensures RowReads(base, unit, n, size, source)
  {
    if n > 0 {
      CoveredStep(n - 1, unit, size);
      GatherRow(base, unit, n - 1, size, source);
      RowStep(base, unit, n - 1, size, source);
    }
  }

  ghost predicate RowReads(base: nat, unit: nat, n: nat, size: nat, source: Buffer) {
    var g := Gather(Row(base, unit, n), unit, size);
    Within(g, |source|) && Content(source, g) == Piece(source, Extent(base, Covered(n, unit, size)))
  }

  lemma {:induction false} RowStep(base: nat, unit: nat, n: nat, size: nat, source: Buffer)
    requires (n + 1) * unit < size + unit && base + Covered(n + 1, unit, size) <= |source|
    requires RowReads(base, unit, n, size, source)
    ensures RowReads(base, unit, n + 1, size, source)
  {
    CoveredStep(n, unit, size);
    var t := n * unit;
    var row := Row(base, unit, n);
    GatherSnoc(row, base + t, unit, size);
    ContiguousStep(Gather(row, unit, size), source, base, base + t, Chunk(size, unit, n));
  }

  lemma {:induction false} GatherSnoc(row: seq<nat>, at: nat, unit: nat, size: nat)
    ensures Gather(row + [at], unit, size) == AppendExtent(Gather(row, unit, size), at, Chunk(size, unit, |row|))
  {
    assert (row + [at])[..|row|] == row;
  }

  lemma {:induction false} ContiguousStep(extents: seq<Extent>, source: Buffer, base: nat, at: nat, m: nat)
    requires Within(extents, |source|) && base <= at && at + m <= |source|
    requires Content(source, extents) == Piece(source, Extent(base, at - base))
    ensures Within(AppendExtent(extents, at, m), |source|)
    ensures Content(source, AppendExtent(extents, at, m)) == Piece(source, Extent(base, at + m - base))
  {
    AppendContent(extents, at, m, source);
    PieceJoin(source, base, at, m);
  }

  /** Bytes that `n` units hold of a stream of `size` bytes. */
  function Covered(n: nat, unit: nat, size: nat): nat {
    if n * unit <= size then n * unit else size
  }

  lemma {:induction false} CoveredStep(n: nat, unit: nat, size: nat)
    requires (n + 1) * unit < size + unit
    ensures n * unit <= size && n * unit < size + unit
    ensures Covered(n, unit, size) == n * unit
    ensures Covered(n + 1, unit, size) == n * unit + Chunk(size, unit, n)
  {
    assert (n + 1) * unit == n * unit + unit;
  }

  // ── Geometry: which unit a byte belongs to ─────────────────

  lemma {:induction false} SectorOf(pkg: Package, sector: nat, p: nat)
    requires pkg.Start(sector) <= p < pkg.Start(sector) + pkg.Unit()
    ensures p >= pkg.Unit() && (p - pkg.Unit()) / pkg.Unit() == sector
    ensures (p - pkg.Unit()) % pkg.Unit() == p - pkg.Start(sector)
  {
    if pkg.Unit() == 512 { } else { }
  }

  lemma {:induction false} MiniInSector(unit: nat, mini: nat)
    requires unit == 512 || unit == 4096
    ensures mini * 64 % unit + 64 <= unit
  {
    if unit == 512 {
      var q := mini / 8;
      assert mini * 64 == 512 * q + 64 * (mini % 8);
    } else {
      var q := mini / 64;
      assert mini * 64 == 4096 * q + 64 * (mini % 64);
    }
  }

  lemma {:induction false} MiniOf(pkg: Package, container: seq<nat>, mini: nat, p: nat)
    requires mini * MINI_SECTOR_SIZE / pkg.Unit() < |container|
    requires MiniAddress(pkg, container, mini) <= p < MiniAddress(pkg, container, mini) + MINI_SECTOR_SIZE
    ensures p >= pkg.Unit()
    ensures (p - pkg.Unit()) / pkg.Unit() == container[mini * MINI_SECTOR_SIZE / pkg.Unit()]
    ensures mini * MINI_SECTOR_SIZE % pkg.Unit() <= (p - pkg.Unit()) % pkg.Unit() < mini * MINI_SECTOR_SIZE % pkg.Unit() + MINI_SECTOR_SIZE
  {
    MiniInSector(pkg.Unit(), mini);
    SectorOf(pkg, container[mini * MINI_SECTOR_SIZE / pkg.Unit()], p);
  }

  lemma {:induction false} SameMini(unit: nat, a: nat, b: nat, offset: nat)
    requires unit == 512 || unit == 4096
    requires a * 64 / unit == b * 64 / unit
    requires a * 64 % unit <= offset < a * 64 % unit + 64 && b * 64 % unit <= offset < b * 64 % unit + 64
    ensures a == b
  {
    if unit == 512 { } else { }
  }

  lemma {:induction false} OrdinaryByte(pkg: Package, chain: seq<nat>, size: nat, p: nat)
    requires Covers(Gather(SectorAddresses(pkg, chain), pkg.Unit(), size), p)
    ensures p >= pkg.Unit() && (p - pkg.Unit()) / pkg.Unit() in chain
  {
    var i := GatherCovers(SectorAddresses(pkg, chain), pkg.Unit(), size, p);
    SectorOf(pkg, chain[i], p);
  }

  lemma {:induction false} MiniByte(pkg: Package, container: seq<nat>, chain: seq<nat>, size: nat, p: nat) returns (m: nat, k: nat)
    requires MinisPlaced(pkg, container, chain)
    requires Covers(Gather(MiniAddresses(pkg, container, chain), MINI_SECTOR_SIZE, size), p)
    ensures m in chain && MiniUnit(pkg, container, m, k, p)
  {
    var i := GatherCovers(MiniAddresses(pkg, container, chain), MINI_SECTOR_SIZE, size, p);
    m, k := chain[i], chain[i] * MINI_SECTOR_SIZE / pkg.Unit();
    MiniOf(pkg, container, m, p);
  }

  /** A byte of a readable stream lies in one of the stream's units. */
  lemma {:induction false} ByteInUnit(pkg: Package, x: Node, p: nat)
    requires pkg.Valid() && Alone(pkg, x).Some? && Covers(Alone(pkg, x).value, p)
    ensures p >= pkg.Unit() && (p - pkg.Unit()) / pkg.Unit() in Sectors(pkg, x)
    ensures IsMini(pkg, x) ==> exists m, k :: MiniUnit(pkg, Container(pkg).value, m, k, p) && m in Minis(pkg, x)
  {
    if IsMini(pkg, x) {
      MinisArePlaced(pkg, x);
      var m, k := MiniByte(pkg, Container(pkg).value, MiniChain(pkg, x).value, x.size, p);
    } else if IsOrdinary(pkg, x) {
      OrdinaryByte(pkg, OrdinaryChain(pkg, x).value, x.size, p);
    }
  }

  /** Mini sector m, in the k-th sector of the mini stream, holds the byte at p. */
  ghost predicate MiniUnit(pkg: Package, container: seq<nat>, m: nat, k: nat, p: nat) {
    && k == m * MINI_SECTOR_SIZE / pkg.Unit() && k < |container|
    && p >= pkg.Unit() && (p - pkg.Unit()) / pkg.Unit() == container[k]
    && m * MINI_SECTOR_SIZE % pkg.Unit() <= (p - pkg.Unit()) % pkg.Unit() < m * MINI_SECTOR_SIZE % pkg.Unit() + MINI_SECTOR_SIZE
  }

  lemma {:induction false} MiniUnitUnique(pkg: Package, m: nat, k: nat, m': nat, k': nat, p: nat)
    requires pkg.Valid() && Container(pkg).Some?
    requires MiniUnit(pkg, Container(pkg).value, m, k, p) && MiniUnit(pkg, Container(pkg).value, m', k', p)
    ensures m == m'
  {
    ChainInside(pkg.Fat(), pkg.Count(), pkg.miniStart, Container(pkg).value);
    assert k == k';
    SameMini(pkg.Unit(), m, m', (p - pkg.Unit()) % pkg.Unit());
  }

  /** Streams that share no unit share no byte. */
  lemma {:induction false} ApartMeansNoSharedByte(pkg: Package, x: Node, y: Node, p: nat)
    requires pkg.Valid() && Alone(pkg, x).Some? && Alone(pkg, y).Some? && Apart(pkg, x, y)
    ensures !(Covers(Alone(pkg, x).value, p) && Covers(Alone(pkg, y).value, p))
  {
    if Covers(Alone(pkg, x).value, p) && Covers(Alone(pkg, y).value, p) {
      ByteInUnit(pkg, x, p);
      ByteInUnit(pkg, y, p);
      if IsMini(pkg, x) && IsMini(pkg, y) {
        var m, k :| MiniUnit(pkg, Container(pkg).value, m, k, p) && m in Minis(pkg, x);
        var m', k' :| MiniUnit(pkg, Container(pkg).value, m', k', p) && m' in Minis(pkg, y);
        MiniUnitUnique(pkg, m, k, m', k', p);
      }
      assert false;
    }
  }

  /** The ranges of a readable stream lie in the file and total its size. */
  lemma {:induction false} AloneFits(pkg: Package, x: Node)
    requires pkg.Valid() && Alone(pkg, x).Some?
    ensures Within(Alone(pkg, x).value, |pkg.source|)
    ensures !x.isStorage ==> Total(Alone(pkg, x).value) == x.size
  {
    UnitsBounds(x.size, MINI_SECTOR_SIZE);
    UnitsBounds(x.size, pkg.Unit());
    if IsMini(pkg, x) {
      MinisArePlaced(pkg, x);
      MiniUnitsFit(pkg, x);
      GatherFacts(MiniAddresses(pkg, Container(pkg).value, MiniChain(pkg, x).value), MINI_SECTOR_SIZE, x.size, pkg.source);
    } else if IsOrdinary(pkg, x) {
      var chain := OrdinaryChain(pkg, x).value;
      assert UnitsFit(SectorAddresses(pkg, chain), pkg.Unit(), x.size, |pkg.source|);
      GatherFacts(SectorAddresses(pkg, chain), pkg.Unit(), x.size, pkg.source);
    }
  }

  lemma {:induction false} MiniUnitFits(pkg: Package, container: seq<nat>, m: nat, n: nat)
    requires pkg.Valid() && Container(pkg) == Some(container) && 0 < n <= MINI_SECTOR_SIZE
    requires m * MINI_SECTOR_SIZE + n <= pkg.miniSize && m * MINI_SECTOR_SIZE / pkg.Unit() < |container|
    ensures MiniAddress(pkg, container, m) + n <= |pkg.source|
  {
    var p := m * MINI_SECTOR_SIZE;
    var k := p / pkg.Unit();
    UnitsBounds(pkg.miniSize, pkg.Unit());
    FatIndex(p, pkg.Unit(), UnitsFor(pkg.miniSize, pkg.Unit()));
    assert RangeFits(pkg.Start(container[k]), Chunk(pkg.miniSize, pkg.Unit(), k), |pkg.source|);
    MiniInChunk(pkg.Unit(), m, n, pkg.miniSize);
  }

  /** A mini sector below the mini stream's size lies in the part of a container sector that is
      present in the file. */
  lemma {:induction false} MiniUnitsFit(pkg: Package, x: Node)
    requires pkg.Valid() && Container(pkg).Some? && MiniChain(pkg, x).Some?
    requires MinisPlaced(pkg, Container(pkg).value, MiniChain(pkg, x).value)
    ensures UnitsFit(MiniAddresses(pkg, Container(pkg).value, MiniChain(pkg, x).value), MINI_SECTOR_SIZE, x.size, |pkg.source|)
  {
    var chain := MiniChain(pkg, x).value;
    var container := Container(pkg).value;
    var addrs := MiniAddresses(pkg, container, chain);
    forall i | 0 <= i < |chain| ensures addrs[i] + Chunk(x.size, MINI_SECTOR_SIZE, i) <= |pkg.source| {
      ChunkPositive(x.size, MINI_SECTOR_SIZE, i);
      MiniUnitFits(pkg, container, chain[i], Chunk(x.size, MINI_SECTOR_SIZE, i));
    }
  }

  lemma {:induction false} MiniInChunk(unit: nat, m: nat, n: nat, size: nat)
    requires unit == 512 || unit == 4096
    requires n <= 64 && m * 64 + n <= size
    ensures m * 64 % unit + n <= Chunk(size, unit, m * 64 / unit)
  {
    MiniInSector(unit, m);
    if unit == 512 {
      assert m * 64 == m * 64 / 512 * 512 + m * 64 % 512;
    } else {
      assert m * 64 == m * 64 / 4096 * 4096 + m * 64 % 4096;
    }
  }

  // ── Runs ───────────────────────────────────────────────────

  /** The model after a run, what each call returned, and the calls that succeeded, in order. */
  datatype RunResult = RunResult(owners: Owners, results: seq<Option<seq<Extent>>>, done: seq<Node>)

  /** The calls in turn; a rejected call leaves its marks and the run goes on. */
  ghost function Run(pkg: Package, calls: seq<Node>): (r: RunResult)
    requires pkg.Valid()
    ensures |r.results| == |calls|
  {
    if calls == [] then RunResult(Fresh(pkg), [], [])
    else
      var n := |calls| - 1;
      var before := Run(pkg, calls[..n]);
      var last := Resolve(pkg, before.owners, calls[n]);
      RunResult(last.owners, before.results + [last.extents],
                if last.extents.Some? then before.done + [calls[n]] else before.done)
  }

  lemma {:induction false} FreshInv(pkg: Package)
    requires pkg.Valid()
    ensures Inv(pkg, Fresh(pkg), [])
  {
  }

  lemma {:induction false} RunInv(pkg: Package, calls: seq<Node>)
    requires pkg.Valid()
    ensures Inv(pkg, Run(pkg, calls).owners, Run(pkg, calls).done)
  {
    if calls == [] {
      FreshInv(pkg);
    } else {
      var n := |calls| - 1;
      RunInv(pkg, calls[..n]);
      var before := Run(pkg, calls[..n]);
      ResolveStep(pkg, before.owners, before.done, calls[n]);
    }
  }

  lemma {:induction false} RunValues(pkg: Package, calls: seq<Node>, i: nat)
    requires pkg.Valid() && i < |calls| && Run(pkg, calls).results[i].Some?
    ensures Run(pkg, calls).results[i] == Alone(pkg, calls[i])
  {
    var n := |calls| - 1;
    if i == n {
      RunInv(pkg, calls[..n]);
      ResolveKeepsShape(pkg, Run(pkg, calls[..n]).owners, calls[n]);
    } else {
      RunValues(pkg, calls[..n], i);
    }
  }

  lemma {:induction false} SucceededAt(pkg: Package, calls: seq<Node>, i: nat, j: nat) returns (a: nat, b: nat)
    requires pkg.Valid() && i < j < |calls|
    requires Run(pkg, calls).results[i].Some? && Run(pkg, calls).results[j].Some?
    ensures a < b < |Run(pkg, calls).done|
    ensures Run(pkg, calls).done[a] == calls[i] && Run(pkg, calls).done[b] == calls[j]
  {
    var n := |calls| - 1;
    if j == n {
      a := SucceededOne(pkg, calls[..n], i);
      b := |Run(pkg, calls[..n]).done|;
    } else {
      a, b := SucceededAt(pkg, calls[..n], i, j);
    }
  }

  lemma {:induction false} SucceededOne(pkg: Package, calls: seq<Node>, i: nat) returns (a: nat)
    requires pkg.Valid() && i < |calls| && Run(pkg, calls).results[i].Some?
    ensures a < |Run(pkg, calls).done| && Run(pkg, calls).done[a] == calls[i]
  {
    var n := |calls| - 1;
    if i == n {
      a := |Run(pkg, calls[..n]).done|;
    } else {
      a := SucceededOne(pkg, calls[..n], i);
    }
  }

  /** Over every sequence of calls on one model, whatever its tables hold: the ranges of a
      successful call lie in the file, total the stream's size and do not depend on the calls
      before it, and no byte is delivered by two calls. */
  lemma {:induction false} NoByteDeliveredTwice(pkg: Package, calls: seq<Node>)
    requires pkg.Valid()
    ensures var r := Run(pkg, calls).results;
      && (forall i :: 0 <= i < |calls| && r[i].Some? ==>
            && r[i] == Resolve(pkg, Fresh(pkg), calls[i]).extents
            && Within(r[i].value, |pkg.source|)
            && (!calls[i].isStorage ==> Total(r[i].value) == calls[i].size))
      && (forall i, j, p :: 0 <= i < j < |calls| && r[i].Some? && r[j].Some? ==>
            !(Covers(r[i].value, p) && Covers(r[j].value, p)))
  {
    var r := Run(pkg, calls).results;
    RunInv(pkg, calls);
    forall i | 0 <= i < |calls| && r[i].Some?
      ensures r[i] == Resolve(pkg, Fresh(pkg), calls[i]).extents && Within(r[i].value, |pkg.source|)
      ensures !calls[i].isStorage ==> Total(r[i].value) == calls[i].size
    {
      RunValues(pkg, calls, i);
      AloneFits(pkg, calls[i]);
      AloneIsFresh(pkg, calls[i]);
    }
    forall i, j, p | 0 <= i < j < |calls| && r[i].Some? && r[j].Some?
      ensures !(Covers(r[i].value, p) && Covers(r[j].value, p))
    {
      RunValues(pkg, calls, i);
      RunValues(pkg, calls, j);
      var a, b := SucceededAt(pkg, calls, i, j);
      assert Apart(pkg, Run(pkg, calls).done[a], Run(pkg, calls).done[b]);
      ApartMeansNoSharedByte(pkg, calls[i], calls[j], p);
    }
  }

  lemma {:induction false} AloneIsFresh(pkg: Package, x: Node)
    requires pkg.Valid()
    ensures Resolve(pkg, Fresh(pkg), x).extents == Alone(pkg, x)
  {
    var st := Fresh(pkg);
    if IsMini(pkg, x) {
      EnsureFacts(pkg, st);
      MiniFacts(pkg, st, x);
      if Container(pkg).Some? {
        if pkg.miniSize != 0 { ChainInside(pkg.Fat(), pkg.Count(), pkg.miniStart, Container(pkg).value); }
        if MiniChain(pkg, x).Some? {
          ChainInside(pkg.miniFat, |pkg.miniFat|, x.start, MiniChain(pkg, x).value);
        }
      }
    } else if IsOrdinary(pkg, x) {
      OrdinaryFacts(pkg, st, x);
      if OrdinaryChain(pkg, x).Some? {
        ChainInside(pkg.Fat(), pkg.Count(), x.start, OrdinaryChain(pkg, x).value);
      }
    }
  }

  // ── Order independence ─────────────────────────────────────

  /** The calls in turn, stopping at the first rejection, as every client of the model does. */
  ghost predicate AllResolve(pkg: Package, st: Owners, calls: seq<Node>)
    requires pkg.Valid()
    decreases |calls|
  {
    calls == [] || (var r := Resolve(pkg, st, calls[0]); r.extents.Some? && AllResolve(pkg, r.owners, calls[1..]))
  }

  /** After a run in which every call succeeded, exactly the units of those streams are marked. */
  ghost predicate Exact(pkg: Package, st: Owners, done: seq<Node>)
    requires pkg.Valid() && Inv(pkg, st, done)
  {
    && (forall s :: 0 <= s < |st.sector| && st.sector[s] != 0 ==> SectorClaimed(pkg, done, s))
    && (forall m :: 0 <= m < |st.mini| && st.mini[m] != 0 ==> MiniClaimed(pkg, done, m))
    && (st.ready ==> exists i :: 0 <= i < |done| && IsMini(pkg, done[i]))
  }

  ghost predicate SectorClaimed(pkg: Package, done: seq<Node>, s: nat)
    requires pkg.Valid() && Compatible(pkg, done)
  {
    exists i :: 0 <= i < |done| && s in Sectors(pkg, done[i])
  }

  ghost predicate MiniClaimed(pkg: Package, done: seq<Node>, m: nat)
    requires pkg.Valid() && Compatible(pkg, done)
  {
    exists i :: 0 <= i < |done| && m in Minis(pkg, done[i])
  }

  lemma {:induction false} OrdinarySucceeds(pkg: Package, st: Owners, done: seq<Node>, x: Node)
    requires pkg.Valid() && Inv(pkg, st, done) && Exact(pkg, st, done) && IsOrdinary(pkg, x)
    requires Alone(pkg, x).Some? && forall i :: 0 <= i < |done| ==> Apart(pkg, done[i], x)
    ensures Resolve(pkg, st, x).extents.Some?
  {
    OrdinaryFacts(pkg, st, x);
    ChainInside(pkg.Fat(), pkg.Count(), x.start, Sectors(pkg, x));
    forall s | s in Sectors(pkg, x) ensures s < |st.sector| && st.sector[s] == 0 {
      if st.sector[s] != 0 {
        assert false;
      }
    }
  }

  lemma {:induction false} MiniSucceeds(pkg: Package, st: Owners, done: seq<Node>, x: Node)
    requires pkg.Valid() && Inv(pkg, st, done) && Exact(pkg, st, done) && IsMini(pkg, x)
    requires Alone(pkg, x).Some? && forall i :: 0 <= i < |done| ==> Apart(pkg, done[i], x)
    ensures Resolve(pkg, st, x).extents.Some?
  {
    hide Walk, Gather;
    EnsureFacts(pkg, st);
    MiniFacts(pkg, st, x);
    ChainInside(pkg.miniFat, |pkg.miniFat|, x.start, Minis(pkg, x));
    forall m | m in Minis(pkg, x) ensures m < |st.mini| && st.mini[m] == 0 {
      if st.mini[m] != 0 {
        assert false;
      }
    }
    if !st.ready {
      if pkg.miniSize != 0 {
        ChainInside(pkg.Fat(), pkg.Count(), pkg.miniStart, Container(pkg).value);
      }
      forall s | s in Container(pkg).value ensures s < |st.sector| && st.sector[s] == 0 {
        if st.sector[s] != 0 {
          assert false;
        }
      }
    }
  }

  lemma {:induction false} ExactSectors(pkg: Package, st: Owners, done: seq<Node>, x: Node, s: nat)
    requires pkg.Valid() && Inv(pkg, st, done) && Exact(pkg, st, done)
    requires Resolve(pkg, st, x).extents.Some? && Compatible(pkg, done + [x])
    requires s < |Resolve(pkg, st, x).owners.sector| && Resolve(pkg, st, x).owners.sector[s] != 0
    ensures SectorClaimed(pkg, done + [x], s)
  {
    var all := done + [x];
    assert all[|done|] == x;
    if IsMini(pkg, x) {
      EnsureFacts(pkg, st);
      MiniFacts(pkg, st, x);
    } else if IsOrdinary(pkg, x) {
      OrdinaryFacts(pkg, st, x);
    }
    if s in Sectors(pkg, x) {
      assert s in Sectors(pkg, all[|done|]);
    } else {
      assert st.sector[s] != 0;
      var i :| 0 <= i < |done| && s in Sectors(pkg, done[i]);
      assert all[i] == done[i];
    }
  }

  lemma {:induction false} ExactMinis(pkg: Package, st: Owners, done: seq<Node>, x: Node, m: nat)
    requires pkg.Valid() && Inv(pkg, st, done) && Exact(pkg, st, done)
    requires Resolve(pkg, st, x).extents.Some? && Compatible(pkg, done + [x])
    requires m < |Resolve(pkg, st, x).owners.mini| && Resolve(pkg, st, x).owners.mini[m] != 0
    ensures MiniClaimed(pkg, done + [x], m)
  {
    var all := done + [x];
    assert all[|done|] == x;
    if IsMini(pkg, x) {
      EnsureFacts(pkg, st);
      MiniFacts(pkg, st, x);
    } else if IsOrdinary(pkg, x) {
      OrdinaryFacts(pkg, st, x);
    }
    if m in Minis(pkg, x) {
      assert m in Minis(pkg, all[|done|]);
    } else {
      assert st.mini[m] != 0;
      var i :| 0 <= i < |done| && m in Minis(pkg, done[i]);
      assert all[i] == done[i];
    }
  }

  lemma {:induction false} ExactReady(pkg: Package, st: Owners, done: seq<Node>, x: Node)
    requires pkg.Valid() && Inv(pkg, st, done) && Exact(pkg, st, done)
    requires Resolve(pkg, st, x).owners.ready
    ensures exists i :: 0 <= i < |done + [x]| && IsMini(pkg, (done + [x])[i])
  {
    var all := done + [x];
    if IsMini(pkg, x) {
      assert IsMini(pkg, all[|done|]);
    } else {
      var i :| 0 <= i < |done| && IsMini(pkg, done[i]);
      assert IsMini(pkg, all[i]);
    }
  }

  lemma {:induction false} ExactStep(pkg: Package, st: Owners, done: seq<Node>, x: Node)
    requires pkg.Valid() && Inv(pkg, st, done) && Exact(pkg, st, done)
    requires Resolve(pkg, st, x).extents.Some?
    ensures Inv(pkg, Resolve(pkg, st, x).owners, done + [x])
    ensures Exact(pkg, Resolve(pkg, st, x).owners, done + [x])
  {
    ResolveStep(pkg, st, done, x);
    var next := Resolve(pkg, st, x).owners;
    forall s | 0 <= s < |next.sector| && next.sector[s] != 0 ensures SectorClaimed(pkg, done + [x], s) {
      ExactSectors(pkg, st, done, x, s);
    }
    forall m | 0 <= m < |next.mini| && next.mini[m] != 0 ensures MiniClaimed(pkg, done + [x], m) {
      ExactMinis(pkg, st, done, x, m);
    }
    if next.ready { ExactReady(pkg, st, done, x); }
  }

  /** From a model on which `done` succeeded, the next calls all succeed exactly when the whole
      list is compatible. */
  lemma {:induction false} AllResolveFrom(pkg: Package, st: Owners, done: seq<Node>, calls: seq<Node>)
    requires pkg.Valid() && Inv(pkg, st, done) && Exact(pkg, st, done)
    ensures AllResolve(pkg, st, calls) <==> Compatible(pkg, done + calls)
    decreases |calls|
  {
    if calls == [] {
      assert done + calls == done;
    } else {
      var x := calls[0];
      var r := Resolve(pkg, st, x);
      assert done + calls == (done + [x]) + calls[1..];
      if r.extents.Some? {
        ExactStep(pkg, st, done, x);
        AllResolveFrom(pkg, r.owners, done + [x], calls[1..]);
      } else if Compatible(pkg, done + calls) {
        NextSucceeds(pkg, st, done, calls);
      }
    }
  }

  lemma {:induction false} NextSucceeds(pkg: Package, st: Owners, done: seq<Node>, calls: seq<Node>)
    requires pkg.Valid() && Inv(pkg, st, done) && Exact(pkg, st, done) && calls != []
    requires Compatible(pkg, done + calls)
    ensures Resolve(pkg, st, calls[0]).extents.Some?
  {
    var all := done + calls;
    var x := calls[0];
    assert all[|done|] == x;
    assert Alone(pkg, all[|done|]).Some?;
    forall i | 0 <= i < |done| ensures Apart(pkg, done[i], x) {
      assert all[i] == done[i];
      assert Apart(pkg, all[i], all[|done|]);
    }
    if IsMini(pkg, x) { MiniSucceeds(pkg, st, done, x); }
    else if IsOrdinary(pkg, x) { OrdinarySucceeds(pkg, st, done, x); }
  }

  /** A list of streams can be read on a fresh model if and only if each can be read on its own
      and no two share a unit. */
  lemma {:induction false} AllResolveExactly(pkg: Package, calls: seq<Node>)
    requires pkg.Valid()
    ensures AllResolve(pkg, Fresh(pkg), calls) <==> Compatible(pkg, calls)
  {
    FreshInv(pkg);
    AllResolveFrom(pkg, Fresh(pkg), [], calls);
    assert [] + calls == calls;
  }

  /** So the order of the calls decides nothing. */
  lemma {:induction false} OrderDoesNotMatter(pkg: Package, a: seq<Node>, b: seq<Node>)
    requires pkg.Valid() && multiset(a) == multiset(b)
    ensures AllResolve(pkg, Fresh(pkg), a) <==> AllResolve(pkg, Fresh(pkg), b)
  {
    AllResolveExactly(pkg, a);
    AllResolveExactly(pkg, b);
    if Compatible(pkg, a) { CompatiblePermutes(pkg, a, b); }
    if Compatible(pkg, b) { CompatiblePermutes(pkg, b, a); }
  }

  lemma {:induction false} CompatiblePermutes(pkg: Package, a: seq<Node>, b: seq<Node>)
    requires pkg.Valid() && multiset(a) == multiset(b) && Compatible(pkg, a)
    ensures Compatible(pkg, b)
  {
    forall i | 0 <= i < |b| ensures Alone(pkg, b[i]).Some? {
      InSeqInMultiset(b, a, b[i]);
    }
    forall i, j | 0 <= i < j < |b| ensures Apart(pkg, b[i], b[j]) {
      var x, y := TwoOf(b, a, i, j);
      if x < y {
        assert Apart(pkg, a[x], a[y]);
      } else {
        assert Apart(pkg, a[y], a[x]);
        ApartSymmetric(pkg, a[y], a[x]);
      }
    }
  }

  /** Two places of one arrangement correspond to two places of the other. */
  lemma {:induction false} TwoOf(b: seq<Node>, a: seq<Node>, i: nat, j: nat) returns (x: nat, y: nat)
    requires multiset(a) == multiset(b) && i < j < |b|
    ensures x < |a| && y < |a| && x != y && a[x] == b[i] && a[y] == b[j]
  {
    if b[i] == b[j] {
      assert b == b[..i] + [b[i]] + b[i + 1..j] + [b[j]] + b[j + 1..];
      x, y := TwoPlaces(a, b[i]);
    } else {
      InSeqInMultiset(b, a, b[i]);
      InSeqInMultiset(b, a, b[j]);
      x :| 0 <= x < |a| && a[x] == b[i];
      y :| 0 <= y < |a| && a[y] == b[j];
    }
  }
}
