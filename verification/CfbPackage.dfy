/** The package model with its ownership state, updated in place by every resolution. */
module CfbPackage {
  import opened Bytes
  import opened CfbModel
  import opened CfbChains
  import opened CfbResolve
  import opened CfbRuns

  /** Bytes of a stream not yet held by its first i units. */
  function Left(size: nat, unit: nat, i: nat): nat {
    if i * unit <= size then size - i * unit else 0
  }

  lemma {:induction false} LeftStep(size: nat, unit: nat, i: nat)
    ensures Chunk(size, unit, i) == if unit <= Left(size, unit, i) then unit else Left(size, unit, i)
    ensures Left(size, unit, i + 1) == Left(size, unit, i) - Chunk(size, unit, i)
  {
    assert (i + 1) * unit == i * unit + unit;
  }

  lemma {:induction false} GatherNext(addrs: seq<nat>, unit: nat, size: nat, i: nat)
    requires i < |addrs|
    ensures Gather(addrs[..i + 1], unit, size) == AppendExtent(Gather(addrs[..i], unit, size), addrs[i], Chunk(size, unit, i))
  {
    assert addrs[..i + 1] == addrs[..i] + [addrs[i]];
    GatherSnoc(addrs[..i], addrs[i], unit, size);
  }

  /** Gathers the extents of a stream along its chain of sectors, or finds that the file ends too early for it. */
  method GatherSectors(pkg: Package, chain: seq<nat>, size: nat) returns (ok: bool, extents: seq<Extent>)
    ensures ok <==> SectorsFit(pkg, chain, size, |chain|)
    ensures ok ==> extents == Gather(SectorAddresses(pkg, chain), pkg.Unit(), size)
  {
    var remaining: nat := size;
    extents := [];
    ghost var addrs := SectorAddresses(pkg, chain);
    for i := 0 to |chain|
      invariant remaining == Left(size, pkg.Unit(), i)
      invariant SectorsFit(pkg, chain, size, i) && extents == Gather(addrs[..i], pkg.Unit(), size)
    {
      LeftStep(size, pkg.Unit(), i);
      GatherNext(addrs, pkg.Unit(), size, i);
      var chunk := if pkg.Unit() <= remaining then pkg.Unit() else remaining;
      if !RangeFits(pkg.Start(chain[i]), chunk, |pkg.source|) {
        return false, [];
      }
      extents := AppendExtent(extents, pkg.Start(chain[i]), chunk);
      remaining := remaining - chunk;
    }
    assert addrs[..|chain|] == addrs;
    ok := true;
  }

  /** Whether the sectors of the mini stream hold its bytes. */
  method CheckSectors(pkg: Package, chain: seq<nat>, size: nat, needed: nat) returns (ok: bool)
    requires needed <= |chain|
    ensures ok <==> SectorsFit(pkg, chain, size, needed)
  {
    var remaining: nat := size;
    for i := 0 to needed
      invariant remaining == Left(size, pkg.Unit(), i) && SectorsFit(pkg, chain, size, i)
    {
      LeftStep(size, pkg.Unit(), i);
      var chunk := if pkg.Unit() <= remaining then pkg.Unit() else remaining;
      if !RangeFits(pkg.Start(chain[i]), chunk, |pkg.source|) {
        return false;
      }
      remaining := remaining - chunk;
    }
    ok := true;
  }

  ghost predicate MinisFitTo(pkg: Package, chain: seq<nat>, size: nat, n: nat)
    requires n <= |chain|
  {
    forall i :: 0 <= i < n ==> RangeFits(chain[i] * MINI_SECTOR_SIZE, Chunk(size, MINI_SECTOR_SIZE, i), pkg.miniSize)
  }

  /** The ranges of a chain of mini sectors, through the sectors of the mini stream. */
  method GatherMinis(pkg: Package, container: seq<nat>, chain: seq<nat>, size: nat) returns (ok: bool, extents: seq<Extent>)
    requires Covering(pkg, container) && |chain| == UnitsFor(size, MINI_SECTOR_SIZE)
    ensures ok <==> MinisFit(pkg, chain, size)
    ensures ok ==> MinisPlaced(pkg, container, chain) && extents == Gather(MiniAddresses(pkg, container, chain), MINI_SECTOR_SIZE, size)
  {
    var remaining: nat := size;
    extents := [];
    for i := 0 to |chain|
      invariant remaining == Left(size, MINI_SECTOR_SIZE, i) && MinisFitTo(pkg, chain, size, i)
      invariant MinisPlaced(pkg, container, chain[..i])
      invariant extents == Gather(MiniAddresses(pkg, container, chain[..i]), MINI_SECTOR_SIZE, size)
    {
      LeftStep(size, MINI_SECTOR_SIZE, i);
      ChunkPositive(size, MINI_SECTOR_SIZE, i);
      var chunk := if MINI_SECTOR_SIZE <= remaining then MINI_SECTOR_SIZE else remaining;
      var position := chain[i] * MINI_SECTOR_SIZE;
      if !RangeFits(position, chunk, pkg.miniSize) {
        return false, [];
      }
      MiniHasSector(pkg, container, chain[i], chunk);
      MiniNext(pkg, container, chain, size, i);
      extents := AppendExtent(extents, pkg.Start(container[position / pkg.Unit()]) + position % pkg.Unit(), chunk);
      remaining := remaining - chunk;
    }
    assert chain[..|chain|] == chain;
    ok := true;
  }

  lemma {:induction false} MiniNext(pkg: Package, container: seq<nat>, chain: seq<nat>, size: nat, i: nat)
    requires i < |chain| && MinisPlaced(pkg, container, chain[..i]) && chain[i] * MINI_SECTOR_SIZE / pkg.Unit() < |container|
    ensures MinisPlaced(pkg, container, chain[..i + 1])
    ensures Gather(MiniAddresses(pkg, container, chain[..i + 1]), MINI_SECTOR_SIZE, size)
         == AppendExtent(Gather(MiniAddresses(pkg, container, chain[..i]), MINI_SECTOR_SIZE, size),
                         MiniAddress(pkg, container, chain[i]), Chunk(size, MINI_SECTOR_SIZE, i))
  {
    assert chain[..i + 1] == chain[..i] + [chain[i]];
    var a, b := MiniAddresses(pkg, container, chain[..i]), MiniAddresses(pkg, container, chain[..i + 1]);
    assert b == a + [MiniAddress(pkg, container, chain[i])];
    GatherSnoc(a, MiniAddress(pkg, container, chain[i]), MINI_SECTOR_SIZE, size);
  }

  /** The sectors cover the mini stream. */
  predicate Covering(pkg: Package, container: seq<nat>) {
    UnitsFor(pkg.miniSize, pkg.Unit()) <= |container|
  }

  lemma {:induction false} ContainerCovers(pkg: Package)
    requires pkg.Valid() && Container(pkg).Some?
    ensures Covering(pkg, Container(pkg).value)
  {
  }

  /** A mini sector that holds a byte of the mini stream lies in one of its sectors. */
  lemma {:induction false} MiniHasSector(pkg: Package, container: seq<nat>, m: nat, n: nat)
    requires Covering(pkg, container) && 0 < n && m * MINI_SECTOR_SIZE + n <= pkg.miniSize
    ensures m * MINI_SECTOR_SIZE / pkg.Unit() < |container|
  {
    UnitsBounds(pkg.miniSize, pkg.Unit());
    FatIndex(m * MINI_SECTOR_SIZE, pkg.Unit(), UnitsFor(pkg.miniSize, pkg.Unit()));
  }

  /** A parsed package with the ownership state that resolving streams changes. */
  class PackageModel {
    const pkg: Package
    const sectors: SectorOwners
    var mini: seq<nat>
    var last: nat
    var ready: bool
    var container: seq<nat>

    ghost predicate Valid()
      reads this, sectors
    {
      && pkg.Valid() && sectors.Valid() && sectors.count == pkg.Count()
      && Shape(pkg, Owners(sectors.View(), mini, last, ready, container))
    }

    /** The ownership state as a value. */
    ghost function State(): Owners
      requires Valid()
      reads this, sectors
    {
      Owners(sectors.View(), mini, last, ready, container)
    }

    constructor (p: Package)
      requires p.Valid()
      ensures Valid() && pkg == p && State() == Fresh(p) && fresh(sectors)
    {
      pkg := p;
      sectors := new SectorOwners(p.Count());
      mini := seq(|p.miniFat|, _ => 0);
      last, ready, container := 0, false, [];
    }

    /** The walk through the mini-FAT. */
    method WalkMiniChain(start: nat, id: nat) returns (ok: bool, chain: seq<nat>)
      requires Valid() && id != 0
      modifies this`mini
      ensures |mini| == |old(mini)| && Walked(ok, chain, mini) == Walk(pkg.miniFat, start, old(mini), id)
    {
      var current: nat := start;
      chain := [];
      ok := true;
      ghost var goal := Walk(pkg.miniFat, start, mini, id);
      while current != END_OF_CHAIN
        invariant ok && |mini| == |pkg.miniFat|
        invariant var w := Walk(pkg.miniFat, current, mini, id); goal == Walked(w.ok, chain + w.chain, w.owner)
        decreases Unowned(mini)
      {
        if current >= |pkg.miniFat| || mini[current] != 0 {
          ok := false;
          return;
        }
        assert current in Unowned(mini) && current !in Unowned(mini[current := id]);
        ghost var w := Walk(pkg.miniFat, pkg.miniFat[current], mini[current := id], id);
        assert chain + ([current] + w.chain) == (chain + [current]) + w.chain;
        mini := mini[current := id];
        chain := chain + [current];
        current := pkg.miniFat[current];
      }
    }

    method EnsureMiniStream() returns (ok: bool)
      requires Valid()
      modifies this, sectors
      ensures Valid() && Ensured(State(), ok) == CfbResolve.EnsureMiniStream(pkg, old(State()))
    {
      hide Walk, UnitsFor, SectorsFit;
      EnsureFacts(pkg, State());
      if ready {
        return true;
      }
      if pkg.miniSize != 0 {
        last := last + 1;
        var walked, chain := WalkChain(pkg.Fat(), pkg.miniStart, sectors, last);
        if !walked { return false; }
        var needed := CountUnits(pkg.miniSize, pkg.Unit());
        if |chain| < needed { return false; }
        var fit := CheckSectors(pkg, chain, pkg.miniSize, needed);
        if !fit { return false; }
        container := chain;
      }
      ready := true;
      ok := true;
    }

    method ResolveOrdinary(x: Node) returns (r: Option<seq<Extent>>)
      requires Valid() && IsOrdinary(pkg, x)
      modifies this, sectors
      ensures Valid() && Resolved(State(), r) == CfbResolve.ResolveOrdinary(pkg, old(State()), x)
    {
      OrdinaryFacts(pkg, State(), x);
      last := last + 1;
      var walked, chain := WalkChain(pkg.Fat(), x.start, sectors, last);
      if !walked { return None; }
      var needed := CountUnits(x.size, pkg.Unit());
      if |chain| != needed { return None; }
      var fit, extents := GatherSectors(pkg, chain, x.size);
      r := if fit then Some(extents) else None;
    }

    method ResolveInContainer(x: Node) returns (r: Option<seq<Extent>>)
      requires Valid() && ready
      modifies this`last, this`mini
      ensures pkg.Valid() && sectors.Valid()
      ensures Resolved(Owners(sectors.View(), mini, last, ready, container), r) == CfbResolve.ResolveInContainer(pkg, old(State()), x)
    {
      ContainerCovers(pkg);
      last := last + 1;
      var walked, chain := WalkMiniChain(x.start, last);
      if !walked { return None; }
      var needed := CountUnits(x.size, MINI_SECTOR_SIZE);
      if |chain| != needed { return None; }
      var fit, extents := GatherMinis(pkg, container, chain, x.size);
      r := if fit then Some(extents) else None;
    }

    method ResolveMini(x: Node) returns (r: Option<seq<Extent>>)
      requires Valid() && IsMini(pkg, x)
      modifies this, sectors
      ensures Valid() && Resolved(State(), r) == CfbResolve.ResolveMini(pkg, old(State()), x)
    {
      MiniFacts(pkg, State(), x);
      var ensured := EnsureMiniStream();
      if !ensured { return None; }
      r := ResolveInContainer(x);
    }

    /** The byte ranges of a stream, or a rejection; the model remembers which sectors it used. */
    method Resolve(x: Node) returns (r: Option<seq<Extent>>)
      requires Valid()
      modifies this, sectors
      ensures Valid() && Resolved(State(), r) == CfbResolve.Resolve(pkg, old(State()), x)
    {
      if x.isStorage || x.size == 0 {
        return Some([]);
      }
      if x.size < pkg.header.cutoff {
        r := ResolveMini(x);
      } else {
        r := ResolveOrdinary(x);
      }
    }
  }
}
