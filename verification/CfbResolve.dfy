/** Resolution of streams to byte ranges of the source, with ownership of sectors
    threaded through every call on one model. */
module CfbResolve {
  import opened Bytes
  import opened CfbModel
  import opened CfbChains

  datatype Extent = Extent(offset: nat, length: nat)

  /** Bytes of a stream of `size` bytes that its i-th unit holds. */
  function Chunk(size: nat, unit: nat, i: nat): (n: nat)
    ensures n <= unit
  {
    if size <= i * unit then 0 else if size - i * unit < unit then size - i * unit else unit
  }

  /** One more range: the last extent grows when the range begins where it ends. */
  function AppendExtent(extents: seq<Extent>, offset: nat, length: nat): seq<Extent> {
    var n := |extents|;
    if n > 0 && extents[n - 1].offset + extents[n - 1].length == offset
    then extents[n - 1 := Extent(extents[n - 1].offset, extents[n - 1].length + length)]
    else extents + [Extent(offset, length)]
  }

  /** The ranges of a stream whose units lie at `addrs`. */
  function Gather(addrs: seq<nat>, unit: nat, size: nat): seq<Extent> {
    if addrs == [] then []
    else var n := |addrs| - 1;
      AppendExtent(Gather(addrs[..n], unit, size), addrs[n], Chunk(size, unit, n))
  }

  // ── Resolution on its own ──────────────────────────────────

  predicate IsMini(pkg: Package, x: Node) {
    !x.isStorage && x.size != 0 && x.size < pkg.header.cutoff
  }

  predicate IsOrdinary(pkg: Package, x: Node) {
    !x.isStorage && x.size != 0 && x.size >= pkg.header.cutoff
  }

  ghost predicate SectorsFit(pkg: Package, chain: seq<nat>, size: nat, n: nat)
    requires n <= |chain|
  {
    forall i :: 0 <= i < n ==> RangeFits(pkg.Start(chain[i]), Chunk(size, pkg.Unit(), i), |pkg.source|)
  }

  /** The sectors of the mini stream. The chain may be longer than the size needs, not shorter. */
  ghost function Container(pkg: Package): Option<seq<nat>>
    requires pkg.Valid()
  {
    if pkg.miniSize == 0 then Some([])
    else
      var solo := Solo(pkg.Fat(), pkg.Count(), pkg.miniStart);
      var needed := UnitsFor(pkg.miniSize, pkg.Unit());
      if solo.Some? && needed <= |solo.value| && SectorsFit(pkg, solo.value, pkg.miniSize, needed)
      then solo else None
  }

  ghost function OrdinaryChain(pkg: Package, x: Node): Option<seq<nat>>
    requires pkg.Valid()
  {
    var solo := Solo(pkg.Fat(), pkg.Count(), x.start);
    if solo.Some? && |solo.value| == UnitsFor(x.size, pkg.Unit()) && SectorsFit(pkg, solo.value, x.size, |solo.value|)
    then solo else None
  }

  ghost predicate MinisFit(pkg: Package, chain: seq<nat>, size: nat) {
    forall i :: 0 <= i < |chain| ==>
      RangeFits(chain[i] * MINI_SECTOR_SIZE, Chunk(size, MINI_SECTOR_SIZE, i), pkg.miniSize)
  }

  ghost function MiniChain(pkg: Package, x: Node): Option<seq<nat>> {
    var solo := Solo(pkg.miniFat, |pkg.miniFat|, x.start);
    if solo.Some? && |solo.value| == UnitsFor(x.size, MINI_SECTOR_SIZE) && MinisFit(pkg, solo.value, x.size)
    then solo else None
  }

  /** Where a mini sector lies in the file. */
  function MiniAddress(pkg: Package, container: seq<nat>, mini: nat): nat
    requires mini * MINI_SECTOR_SIZE / pkg.Unit() < |container|
  {
    pkg.Start(container[mini * MINI_SECTOR_SIZE / pkg.Unit()]) + mini * MINI_SECTOR_SIZE % pkg.Unit()
  }

  ghost predicate MinisPlaced(pkg: Package, container: seq<nat>, chain: seq<nat>) {
    forall i :: 0 <= i < |chain| ==> chain[i] * MINI_SECTOR_SIZE / pkg.Unit() < |container|
  }

  ghost function MiniAddresses(pkg: Package, container: seq<nat>, chain: seq<nat>): (a: seq<nat>)
    requires MinisPlaced(pkg, container, chain)
    ensures |a| == |chain|
  {
    seq(|chain|, i requires 0 <= i < |chain| => MiniAddress(pkg, container, chain[i]))
  }

  ghost function SectorAddresses(pkg: Package, chain: seq<nat>): (a: seq<nat>)
    ensures |a| == |chain|
  {
    seq(|chain|, i requires 0 <= i < |chain| => pkg.Start(chain[i]))
  }

  /** Units of a chain of the right length each hold at least one byte. */
  lemma {:induction false} ChunkPositive(size: nat, unit: nat, i: nat)
    requires unit > 0 && i < UnitsFor(size, unit)
    ensures Chunk(size, unit, i) > 0
  {
    UnitsBounds(size, unit);
    Multiples(UnitsFor(size, unit), i + 1, unit);
    assert (i + 1) * unit == i * unit + unit;
  }

  lemma {:induction false} MinisArePlaced(pkg: Package, x: Node)
    requires pkg.Valid() && Container(pkg).Some? && MiniChain(pkg, x).Some?
    ensures MinisPlaced(pkg, Container(pkg).value, MiniChain(pkg, x).value)
  {
    var chain := MiniChain(pkg, x).value;
    forall i | 0 <= i < |chain| ensures chain[i] * MINI_SECTOR_SIZE / pkg.Unit() < |Container(pkg).value| {
      ChunkPositive(x.size, MINI_SECTOR_SIZE, i);
      var p := chain[i] * MINI_SECTOR_SIZE;
      UnitsBounds(pkg.miniSize, pkg.Unit());
      FatIndex(p, pkg.Unit(), UnitsFor(pkg.miniSize, pkg.Unit()));
    }
  }

  /** The ranges of a stream when no other stream is in the way. */
  ghost function Alone(pkg: Package, x: Node): Option<seq<Extent>>
    requires pkg.Valid()
  {
    if IsMini(pkg, x) then
      if Container(pkg).None? || MiniChain(pkg, x).None? then None
      else
        MinisArePlaced(pkg, x);
        Some(Gather(MiniAddresses(pkg, Container(pkg).value, MiniChain(pkg, x).value), MINI_SECTOR_SIZE, x.size))
    else if IsOrdinary(pkg, x) then
      if OrdinaryChain(pkg, x).None? then None
      else Some(Gather(SectorAddresses(pkg, OrdinaryChain(pkg, x).value), pkg.Unit(), x.size))
    else Some([])
  }

  // ── Resolution on a shared model ───────────────────────────

  datatype Owners = Owners(sector: seq<nat>, mini: seq<nat>, last: nat, ready: bool, container: seq<nat>)

  function Fresh(pkg: Package): Owners {
    Owners(seq(pkg.Count(), _ => 0), seq(|pkg.miniFat|, _ => 0), 0, false, [])
  }

  datatype Resolved = Resolved(owners: Owners, extents: Option<seq<Extent>>)
  datatype Ensured = Ensured(owners: Owners, ok: bool)

  ghost function EnsureMiniStream(pkg: Package, st: Owners): Ensured
    requires pkg.Valid()
  {
    if st.ready then Ensured(st, true)
    else if pkg.miniSize == 0 then Ensured(st.(ready := true), true)
    else
      var w := Walk(pkg.Fat(), pkg.miniStart, st.sector, st.last + 1);
      var next := st.(sector := w.owner, last := st.last + 1);
      var needed := UnitsFor(pkg.miniSize, pkg.Unit());
      if w.ok && needed <= |w.chain| && SectorsFit(pkg, w.chain, pkg.miniSize, needed)
      then Ensured(next.(ready := true, container := w.chain), true)
      else Ensured(next, false)
  }

  ghost function ResolveMini(pkg: Package, st: Owners, x: Node): Resolved
    requires pkg.Valid()
  {
    var e := EnsureMiniStream(pkg, st);
    if !e.ok then Resolved(e.owners, None) else ResolveInContainer(pkg, e.owners, x)
  }

  /** The part of it that comes after the mini stream itself has been located. */
  ghost function ResolveInContainer(pkg: Package, st: Owners, x: Node): Resolved
    requires pkg.Valid()
  {
    var w := Walk(pkg.miniFat, x.start, st.mini, st.last + 1);
    var next := st.(mini := w.owner, last := st.last + 1);
    if w.ok && |w.chain| == UnitsFor(x.size, MINI_SECTOR_SIZE) && MinisFit(pkg, w.chain, x.size)
       && MinisPlaced(pkg, next.container, w.chain)
    then Resolved(next, Some(Gather(MiniAddresses(pkg, next.container, w.chain), MINI_SECTOR_SIZE, x.size)))
    else Resolved(next, None)
  }

  ghost function ResolveOrdinary(pkg: Package, st: Owners, x: Node): Resolved
    requires pkg.Valid()
  {
    var w := Walk(pkg.Fat(), x.start, st.sector, st.last + 1);
    var next := st.(sector := w.owner, last := st.last + 1);
    if w.ok && |w.chain| == UnitsFor(x.size, pkg.Unit()) && SectorsFit(pkg, w.chain, x.size, |w.chain|)
    then Resolved(next, Some(Gather(SectorAddresses(pkg, w.chain), pkg.Unit(), x.size)))
    else Resolved(next, None)
  }

  ghost function Resolve(pkg: Package, st: Owners, x: Node): Resolved
    requires pkg.Valid()
  {
    if IsMini(pkg, x) then ResolveMini(pkg, st, x)
    else if IsOrdinary(pkg, x) then ResolveOrdinary(pkg, st, x)
    else Resolved(st, Some([]))
  }

  // ── Which streams can be resolved together ─────────────────

  ghost predicate Disjoint(a: seq<nat>, b: seq<nat>) {
    forall s :: s in a ==> s !in b
  }

  /** Sectors a readable stream occupies in the file. */
  ghost function Sectors(pkg: Package, x: Node): seq<nat>
    requires pkg.Valid() && Alone(pkg, x).Some?
  {
    if IsMini(pkg, x) then Container(pkg).value
    else if IsOrdinary(pkg, x) then OrdinaryChain(pkg, x).value
    else []
  }

  ghost function Minis(pkg: Package, x: Node): seq<nat>
    requires pkg.Valid() && Alone(pkg, x).Some?
  {
    if IsMini(pkg, x) then MiniChain(pkg, x).value else []
  }

  /** Two readable streams share no unit; small ones share the mini stream but no mini sector. */
  ghost predicate Apart(pkg: Package, x: Node, y: Node)
    requires pkg.Valid() && Alone(pkg, x).Some? && Alone(pkg, y).Some?
  {
    if IsMini(pkg, x) && IsMini(pkg, y) then Disjoint(Minis(pkg, x), Minis(pkg, y))
    else Disjoint(Sectors(pkg, x), Sectors(pkg, y))
  }

  ghost predicate Compatible(pkg: Package, xs: seq<Node>)
    requires pkg.Valid()
  {
    && (forall i :: 0 <= i < |xs| ==> Alone(pkg, xs[i]).Some?)
    && (forall i, j :: 0 <= i < j < |xs| ==> Apart(pkg, xs[i], xs[j]))
  }

  lemma {:induction false} ApartSymmetric(pkg: Package, x: Node, y: Node)
    requires pkg.Valid() && Alone(pkg, x).Some? && Alone(pkg, y).Some?
    ensures Apart(pkg, x, y) <==> Apart(pkg, y, x)
  {
  }

  ghost predicate AllMarked(owner: seq<nat>, units: seq<nat>) {
    forall s :: s in units ==> s < |owner| && owner[s] != 0
  }

  ghost predicate Shape(pkg: Package, st: Owners)
    requires pkg.Valid()
  {
    && |st.sector| == pkg.Count() && |st.mini| == |pkg.miniFat|
    && (if st.ready then Container(pkg) == Some(st.container) else st.container == [])
    && (st.ready ==> AllMarked(st.sector, st.container))
  }

  /** What holds after any run of calls, `done` being those that succeeded: their units are
      marked, and they are pairwise apart. */
  ghost predicate Inv(pkg: Package, st: Owners, done: seq<Node>)
    requires pkg.Valid()
  {
    && Shape(pkg, st)
    && Compatible(pkg, done)
    && (forall i :: 0 <= i < |done| ==> Claimed(pkg, st, done[i]))
  }

  ghost predicate Claimed(pkg: Package, st: Owners, x: Node)
    requires pkg.Valid() && Alone(pkg, x).Some?
  {
    && AllMarked(st.sector, Sectors(pkg, x)) && AllMarked(st.mini, Minis(pkg, x))
    && (IsMini(pkg, x) ==> st.ready)
    && (st.ready && IsOrdinary(pkg, x) ==> Disjoint(Sectors(pkg, x), st.container))
  }

  /** How the container walk of a call changes the model. */
  lemma {:induction false} EnsureFacts(pkg: Package, st: Owners)
    requires pkg.Valid() && Shape(pkg, st)
    ensures var e := EnsureMiniStream(pkg, st);
      && Shape(pkg, e.owners)
      && Kept(st.sector, e.owners.sector) && e.owners.mini == st.mini
      && e.owners.ready == (st.ready || e.ok)
      && (e.ok <==> st.ready || (Container(pkg).Some? && AllZero(st.sector, Container(pkg).value)))
      && (st.ready ==> e.owners == st)
      && (e.ok && !st.ready ==> Marked(st.sector, e.owners.sector, Container(pkg).value, st.last + 1))
  {
    if !st.ready && pkg.miniSize != 0 {
      WalkExact(pkg.Fat(), pkg.miniStart, st.sector, st.last + 1);
    }
  }

  lemma {:induction false} OrdinaryFacts(pkg: Package, st: Owners, x: Node)
    requires pkg.Valid() && Shape(pkg, st) && IsOrdinary(pkg, x)
    ensures var r := Resolve(pkg, st, x);
      && (r.extents.Some? <==> Alone(pkg, x).Some? && AllZero(st.sector, Sectors(pkg, x)))
      && (r.extents.Some? ==>
          && r.extents == Alone(pkg, x)
          && Marked(st.sector, r.owners.sector, Sectors(pkg, x), st.last + 1))
      && Kept(st.sector, r.owners.sector)
      && r.owners.mini == st.mini && r.owners.ready == st.ready && r.owners.container == st.container
      && Shape(pkg, r.owners)
  {
    WalkExact(pkg.Fat(), x.start, st.sector, st.last + 1);
  }

  lemma {:induction false} MiniFacts(pkg: Package, st: Owners, x: Node)
    requires pkg.Valid() && Shape(pkg, st) && IsMini(pkg, x)
    ensures var r := Resolve(pkg, st, x); var e := EnsureMiniStream(pkg, st);
      && (r.extents.Some? <==> e.ok && Alone(pkg, x).Some? && AllZero(st.mini, Minis(pkg, x)))
      && (r.extents.Some? ==>
          && r.extents == Alone(pkg, x)
          && Marked(st.mini, r.owners.mini, Minis(pkg, x), e.owners.last + 1))
      && Kept(st.mini, r.owners.mini)
      && r.owners.sector == e.owners.sector && r.owners.ready == e.owners.ready
      && r.owners.container == e.owners.container
      && Shape(pkg, r.owners)
  {
    EnsureFacts(pkg, st);
    var e := EnsureMiniStream(pkg, st);
    if e.ok {
      WalkExact(pkg.miniFat, x.start, e.owners.mini, e.owners.last + 1);
      if MiniChain(pkg, x).Some? {
        MinisArePlaced(pkg, x);
      }
    }
  }

  /** A stream that succeeded earlier keeps its claim, whatever the next call does. */
  lemma {:induction false} ClaimStays(pkg: Package, st: Owners, y: Node, x: Node)
    requires pkg.Valid() && Shape(pkg, st) && Alone(pkg, y).Some? && Claimed(pkg, st, y)
    ensures Claimed(pkg, Resolve(pkg, st, x).owners, y)
  {
    if IsMini(pkg, x) {
      EnsureFacts(pkg, st);
      MiniFacts(pkg, st, x);
    } else if IsOrdinary(pkg, x) {
      OrdinaryFacts(pkg, st, x);
    }
  }

  /** A call that succeeds is apart from every call that succeeded before it. */
  lemma {:induction false} SuccessIsApart(pkg: Package, st: Owners, y: Node, x: Node)
    requires pkg.Valid() && Shape(pkg, st) && Alone(pkg, y).Some? && Claimed(pkg, st, y)
    requires Resolve(pkg, st, x).extents.Some?
    ensures Alone(pkg, x).Some? && Apart(pkg, y, x) && Claimed(pkg, Resolve(pkg, st, x).owners, x)
  {
    ClaimStays(pkg, st, y, x);
    SuccessIsClaimed(pkg, st, x);
    if IsMini(pkg, x) {
      EnsureFacts(pkg, st);
      MiniFacts(pkg, st, x);
    } else if IsOrdinary(pkg, x) {
      OrdinaryFacts(pkg, st, x);
    }
  }

  lemma {:induction false} SuccessIsClaimed(pkg: Package, st: Owners, x: Node)
    requires pkg.Valid() && Shape(pkg, st)
    requires Resolve(pkg, st, x).extents.Some?
    ensures Alone(pkg, x).Some? && Claimed(pkg, Resolve(pkg, st, x).owners, x)
  {
    if IsMini(pkg, x) {
      EnsureFacts(pkg, st);
      MiniFacts(pkg, st, x);
    } else if IsOrdinary(pkg, x) {
      OrdinaryFacts(pkg, st, x);
    }
  }

  lemma {:induction false} ResolveKeepsShape(pkg: Package, st: Owners, x: Node)
    requires pkg.Valid() && Shape(pkg, st)
    ensures Shape(pkg, Resolve(pkg, st, x).owners)
    ensures Resolve(pkg, st, x).extents.Some? ==> Resolve(pkg, st, x).extents == Alone(pkg, x)
  {
    if IsMini(pkg, x) {
      MiniFacts(pkg, st, x);
    } else if IsOrdinary(pkg, x) {
      OrdinaryFacts(pkg, st, x);
    }
  }

  lemma {:induction false} CompatibleAppend(pkg: Package, done: seq<Node>, x: Node)
    requires pkg.Valid() && Compatible(pkg, done) && Alone(pkg, x).Some?
    requires forall i :: 0 <= i < |done| ==> Apart(pkg, done[i], x)
    ensures Compatible(pkg, done + [x])
  {
    var all := done + [x];
    forall i | 0 <= i < |all| ensures Alone(pkg, all[i]).Some? {
      if i < |done| { assert all[i] == done[i]; }
    }
    forall i, j | 0 <= i < j < |all| ensures Apart(pkg, all[i], all[j]) {
      assert all[i] == done[i];
      if j < |done| { assert all[j] == done[j]; }
    }
  }

  lemma {:induction false} ClaimsStay(pkg: Package, st: Owners, done: seq<Node>, x: Node)
    requires pkg.Valid() && Inv(pkg, st, done)
    ensures forall i :: 0 <= i < |done| ==> Claimed(pkg, Resolve(pkg, st, x).owners, done[i])
  {
    forall i | 0 <= i < |done| ensures Claimed(pkg, Resolve(pkg, st, x).owners, done[i]) {
      ClaimStays(pkg, st, done[i], x);
    }
  }

  lemma {:induction false} SuccessCompatible(pkg: Package, st: Owners, done: seq<Node>, x: Node)
    requires pkg.Valid() && Inv(pkg, st, done) && Resolve(pkg, st, x).extents.Some?
    ensures Compatible(pkg, done + [x])
  {
    SuccessIsClaimed(pkg, st, x);
    forall i | 0 <= i < |done| ensures Apart(pkg, done[i], x) {
      SuccessIsApart(pkg, st, done[i], x);
    }
    CompatibleAppend(pkg, done, x);
  }

  /** One call keeps the invariant, whether it succeeds or is rejected. */
  lemma {:induction false} ResolveStep(pkg: Package, st: Owners, done: seq<Node>, x: Node)
    requires pkg.Valid() && Inv(pkg, st, done)
    ensures var r := Resolve(pkg, st, x);
      && Inv(pkg, r.owners, if r.extents.Some? then done + [x] else done)
      && (r.extents.Some? ==> r.extents == Alone(pkg, x))
  {
    ResolveKeepsShape(pkg, st, x);
    ClaimsStay(pkg, st, done, x);
    if Resolve(pkg, st, x).extents.Some? {
      SuccessIsClaimed(pkg, st, x);
      SuccessCompatible(pkg, st, done, x);
    }
  }
}
