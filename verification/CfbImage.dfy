/** The file the writer produces for a list of entries: every region, in order. */
module CfbImage {
  import opened Bytes
  import opened CfbModel
  import opened CfbLayout
  import opened CfbEncoding

  const FAT_SECTOR := 0xFFFF_FFFD
  const DIFAT_SECTOR := 0xFFFF_FFFC

  // ── Where streams go ───────────────────────────────────────

  /** Streams below the cut-off go to the mini stream, the others to sectors of their own. */
  predicate InClass(e: Entry, mini: bool) {
    !e.isStorage && |e.data| > 0 && (mini <==> |e.data| < MINI_STREAM_CUTOFF)
  }

  function UnitOf(mini: bool, major: nat): (u: nat)
    ensures u > 0
  {
    if mini then MINI_SECTOR_SIZE else SectorSize(major)
  }

  function Weight(e: Entry, mini: bool, major: nat): nat {
    if InClass(e, mini) then UnitsFor(|e.data|, UnitOf(mini, major)) else 0
  }

  /** Units used by the first i entries. */
  function Sum(es: seq<Entry>, i: nat, mini: bool, major: nat): nat
    requires i <= |es|
  {
    if i == 0 then 0 else Sum(es, i - 1, mini, major) + Weight(es[i - 1], mini, major)
  }

  function StreamStart(es: seq<Entry>, i: nat, major: nat): nat
    requires i < |es|
  {
    if InClass(es[i], true) then Sum(es, i, true, major)
    else if InClass(es[i], false) then Sum(es, i, false, major)
    else END_OF_CHAIN
  }

  // ── The plan ───────────────────────────────────────────────

  datatype Plan = Plan(major: nat, streams: nat, minis: nat, entries: nat, difat: nat, fat: nat)
  {
    function Unit(): (n: nat) ensures n == 512 || n == 4096 { SectorSize(major) }
    function Per(): (n: nat) ensures EntriesPerSector(n) && 4 * n == Unit() { Unit() / 4 }
    function DirPer(): (n: nat) ensures n > 0 && n * DIR_ENTRY_SIZE == Unit() { Unit() / DIR_ENTRY_SIZE }
    function MiniSectors(): nat { UnitsFor(minis * MINI_SECTOR_SIZE, Unit()) }
    function MiniIndexStart(): nat { streams + MiniSectors() }
    function MiniIndexSectors(): nat { UnitsFor(minis, Per()) }
    function DirStart(): nat { MiniIndexStart() + MiniIndexSectors() }
    function DirSectors(): nat { UnitsFor(entries, DirPer()) }
    function DifatStart(): nat { DirStart() + DirSectors() }
    function FatStart(): nat { DifatStart() + difat }
    function Total(): nat { FatStart() + fat }
    function Slots(): nat { DirSectors() * DirPer() }

    /** The allocation index covers every sector, itself included, and its own index lists it. */
    predicate Solved() {
      fat == NextFat(DifatStart(), fat, Per()) && difat == DifatFor(fat, Per())
    }
  }

  ghost function PlanOf(es: seq<Entry>, major: nat): (p: Plan)
    ensures p.Solved() && p.major == major && p.entries == |es|
    ensures p.streams == Sum(es, |es|, false, major) && p.minis == Sum(es, |es|, true, major)
  {
    var p := Plan(major, Sum(es, |es|, false, major), Sum(es, |es|, true, major), |es|, 0, 0);
    var fat := Least(p.DifatStart(), p.Per());
    LeastSolves(p.DifatStart(), p.Per());
    p.(fat := fat, difat := DifatFor(fat, p.Per()))
  }

  /** The package can be described: sector and mini sector numbers and entry positions stay below the
      marks, names and fields fit, and version 3 sizes, the mini stream's included, fit 32 bits. */
  predicate Describable(es: seq<Entry>, p: Plan) {
    && p.Total() <= MAX_SECTORS && p.Slots() <= NO_STREAM && p.minis <= END_OF_CHAIN
    && (p.major == 3 ==> p.minis * MINI_SECTOR_SIZE < LIMIT32)
    && (forall i :: 0 <= i < |es| ==> EntryDescribable(es[i], p.major))
  }

  predicate EntryDescribable(e: Entry, major: nat) {
    && MetaFits(e.meta) && e.left < LIMIT32 && e.right < LIMIT32 && e.child < LIMIT32
    && |e.data| < LIMIT64 && (major == 3 ==> |e.data| < LIMIT32)
  }

  ghost predicate Planned(es: seq<Entry>, p: Plan) {
    && es != [] && (p.major == 3 || p.major == 4) && p.Solved() && p.entries == |es|
    && p.streams == Sum(es, |es|, false, p.major) && p.minis == Sum(es, |es|, true, p.major)
    && Describable(es, p)
  }

  lemma {:induction false} SumMonotone(es: seq<Entry>, i: nat, j: nat, mini: bool, major: nat)
    requires i <= j <= |es|
    ensures Sum(es, i, mini, major) <= Sum(es, j, mini, major)
    decreases j - i
  {
    if i < j { SumMonotone(es, i, j - 1, mini, major); }
  }

  lemma {:induction false} SumStep(es: seq<Entry>, i: nat, mini: bool, major: nat)
    requires i < |es|
    ensures Sum(es, i, mini, major) + Weight(es[i], mini, major) == Sum(es, i + 1, mini, major) <= Sum(es, |es|, mini, major)
  {
    SumMonotone(es, i + 1, |es|, mini, major);
  }

  lemma {:induction false} StartFits(es: seq<Entry>, p: Plan, i: nat)
    requires Planned(es, p) && i < |es|
    ensures StreamStart(es, i, p.major) < LIMIT32
  {
    SumMonotone(es, i, |es|, true, p.major);
    SumMonotone(es, i, |es|, false, p.major);
  }

  // ── Tables ─────────────────────────────────────────────────

  /** The entries of a run of consecutive units in an index. */
  function RunOf(first: nat, count: nat): (r: seq<nat>)
    ensures |r| == count
  {
    seq(count, i => if i + 1 == count then END_OF_CHAIN else first + i + 1)
  }

  /** The runs of the first n entries. */
  function RunPartsTo(es: seq<Entry>, n: nat, mini: bool, major: nat): (r: seq<seq<nat>>)
    requires n <= |es|
    ensures |r| == n && forall i :: 0 <= i < n ==> |r[i]| == Weight(es[i], mini, major)
  {
    if n == 0 then []
    else RunPartsTo(es, n - 1, mini, major) + [RunOf(Sum(es, n - 1, mini, major), Weight(es[n - 1], mini, major))]
  }

  function RunParts(es: seq<Entry>, mini: bool, major: nat): (r: seq<seq<nat>>) {
    RunPartsTo(es, |es|, mini, major)
  }

  lemma {:induction false} RunPartIs(es: seq<Entry>, n: nat, i: nat, mini: bool, major: nat)
    requires i < n <= |es|
    ensures RunPartsTo(es, n, mini, major)[i] == RunOf(Sum(es, i, mini, major), Weight(es[i], mini, major))
    decreases n
  {
    if i < n - 1 { RunPartIs(es, n - 1, i, mini, major); }
  }

  function Repeat(n: nat, v: nat): (r: seq<nat>)
    ensures |r| == n && forall i :: 0 <= i < n ==> r[i] == v
  {
    seq(n, _ => v)
  }

  /** Parts as long as the entries' weights join to their sum. */
  lemma {:induction false} RunLengths(es: seq<Entry>, parts: seq<seq<nat>>, i: nat, mini: bool, major: nat)
    requires |parts| == |es| && i <= |es| && forall j :: 0 <= j < |es| ==> |parts[j]| == Weight(es[j], mini, major)
    ensures |Join(parts[..i])| == Sum(es, i, mini, major)
    decreases i
  {
    if i > 0 {
      RunLengths(es, parts, i - 1, mini, major);
      JoinStep(parts, i - 1);
    }
  }

  /** The chains of the streams of one class, in directory order. */
  function StreamRuns(es: seq<Entry>, mini: bool, major: nat): (r: seq<nat>)
    ensures |r| == Sum(es, |es|, mini, major)
  {
    RunLengths(es, RunParts(es, mini, major), |es|, mini, major);
    assert RunParts(es, mini, major)[..|es|] == RunParts(es, mini, major);
    Join(RunParts(es, mini, major))
  }

  lemma {:induction false} SolvedCovers(p: Plan)
    requires p.Solved()
    ensures p.Total() <= p.fat * p.Per()
    ensures if p.fat > HEADER_DIFAT_ENTRIES then p.fat - HEADER_DIFAT_ENTRIES <= p.difat * (p.Per() - 1) else p.difat == 0
  {
    UnitsBounds(p.DifatStart() + p.difat + p.fat, p.Per());
    UnitsBounds(if p.fat > HEADER_DIFAT_ENTRIES then p.fat - HEADER_DIFAT_ENTRIES else 0, p.Per() - 1);
  }

  /** First sector of the k-th region after the header. */
  function RegionStart(p: Plan, k: nat): nat {
    if k == 0 then 0 else if k == 1 then p.streams else if k == 2 then p.MiniIndexStart() else if k == 3 then p.DirStart()
    else if k == 4 then p.DifatStart() else if k == 5 then p.FatStart() else p.Total()
  }

  function FatPadding(p: Plan): (t: seq<nat>)
    requires p.Solved()
    ensures p.Total() + |t| == p.fat * p.Per() && Words32(t)
  {
    SolvedCovers(p);
    Repeat(p.fat * p.Per() - p.Total(), FREE_SECTOR)
  }

  /** What the allocation index says of each region: the chains of the streams, of the mini stream, of
      the mini index and of the directory, the marks of the index sectors, and padding. */
  function FatParts(es: seq<Entry>, p: Plan): (t: seq<seq<nat>>)
    requires p.Solved() && p.streams == Sum(es, |es|, false, p.major)
    ensures |t| == 7
  {
    [StreamRuns(es, false, p.major), RunOf(p.streams, p.MiniSectors()), RunOf(p.MiniIndexStart(), p.MiniIndexSectors()),
     RunOf(p.DirStart(), p.DirSectors()), Repeat(p.difat, DIFAT_SECTOR), Repeat(p.fat, FAT_SECTOR),
     FatPadding(p)]
  }

  ghost predicate PartsFollow(t: seq<seq<nat>>, p: Plan) {
    |t| == 7 && forall k :: 0 <= k < 6 ==> RegionStart(p, k) + |t[k]| == RegionStart(p, k + 1)
  }

  lemma {:induction false} PartOffset(t: seq<seq<nat>>, p: Plan, k: nat)
    requires PartsFollow(t, p) && k <= 6
    ensures |Join(t[..k])| == RegionStart(p, k)
  {
    if k == 0 {
      assert t[..0] == [];
    } else {
      PartOffset(t, p, k - 1);
      JoinStep(t, k - 1);
    }
  }

  lemma {:induction false} PartsJoin(t: seq<seq<nat>>, p: Plan)
    requires PartsFollow(t, p)
    ensures |Join(t)| == p.Total() + |t[6]|
  {
    PartOffset(t, p, 6);
    JoinStep(t, 6);
    assert t[..7] == t;
  }

  lemma {:induction false} PartsFollowOf(a: seq<nat>, b: seq<nat>, c: seq<nat>, d: seq<nat>, e: seq<nat>, f: seq<nat>, g: seq<nat>, p: Plan)
    requires |a| == p.streams && |b| == p.MiniSectors() && |c| == p.MiniIndexSectors() && |d| == p.DirSectors()
    requires |e| == p.difat && |f| == p.fat
    ensures PartsFollow([a, b, c, d, e, f, g], p)
  {
  }

  lemma {:induction false} FatPartsFollow(es: seq<Entry>, p: Plan)
    requires p.Solved() && p.streams == Sum(es, |es|, false, p.major)
    ensures PartsFollow(FatParts(es, p), p)
  {
    PartsFollowOf(StreamRuns(es, false, p.major), RunOf(p.streams, p.MiniSectors()), RunOf(p.MiniIndexStart(), p.MiniIndexSectors()),
                  RunOf(p.DirStart(), p.DirSectors()), Repeat(p.difat, DIFAT_SECTOR), Repeat(p.fat, FAT_SECTOR),
                  FatPadding(p), p);
  }

  /** The allocation index. */
  function FatTable(es: seq<Entry>, p: Plan): seq<nat>
    requires p.Solved() && p.streams == Sum(es, |es|, false, p.major)
  {
    Join(FatParts(es, p))
  }

  lemma {:induction false} FatTableSize(es: seq<Entry>, p: Plan)
    requires p.Solved() && p.streams == Sum(es, |es|, false, p.major)
    ensures |FatTable(es, p)| == p.fat * p.Per()
  {
    FatPartsFollow(es, p);
    PartsJoin(FatParts(es, p), p);
  }

  lemma {:induction false} PartSlice(t: seq<seq<nat>>, p: Plan, k: nat)
    requires PartsFollow(t, p) && k < 6
    ensures RegionStart(p, k) + |t[k]| <= |Join(t)| && Join(t)[RegionStart(p, k)..RegionStart(p, k) + |t[k]|] == t[k]
  {
    PartOffset(t, p, k);
    JoinSlice(t, k);
  }

  function MiniTable(es: seq<Entry>, p: Plan): (t: seq<nat>)
    requires p.minis == Sum(es, |es|, true, p.major)
    ensures |t| == p.MiniIndexSectors() * p.Per()
  {
    UnitsBounds(p.minis, p.Per());
    StreamRuns(es, true, p.major) + Repeat(p.MiniIndexSectors() * p.Per() - p.minis, FREE_SECTOR)
  }

  /** The n-th allocation index sector, as the header and the extended index list it. */
  function ListedFat(p: Plan, n: nat): nat {
    if n < p.fat then p.FatStart() + n else FREE_SECTOR
  }

  function ListFrom(p: Plan, first: nat, n: nat): (t: seq<nat>)
    ensures |t| == n && forall i :: 0 <= i < n ==> t[i] == ListedFat(p, first + i)
  {
    if n == 0 then [] else ListFrom(p, first, n - 1) + [ListedFat(p, first + n - 1)]
  }

  function HeaderList(p: Plan): (t: seq<nat>)
    ensures |t| == HEADER_DIFAT_ENTRIES && forall i :: 0 <= i < |t| ==> t[i] == ListedFat(p, i)
  {
    ListFrom(p, 0, HEADER_DIFAT_ENTRIES)
  }

  function DifatListed(p: Plan, d: nat): (t: seq<nat>)
    ensures |t| == p.Per() - 1
    ensures forall j :: 0 <= j < |t| ==> t[j] == ListedFat(p, HEADER_DIFAT_ENTRIES + d * (p.Per() - 1) + j)
  {
    var first: nat := HEADER_DIFAT_ENTRIES + d * (p.Per() - 1);
    ListFrom(p, first, p.Per() - 1)
  }

  /** One extended index sector: the sectors it lists, then the next one. */
  function DifatSector(p: Plan, d: nat): (t: seq<nat>)
    ensures |t| == p.Per()
    ensures forall j :: 0 <= j < p.Per() - 1 ==> t[j] == ListedFat(p, HEADER_DIFAT_ENTRIES + d * (p.Per() - 1) + j)
    ensures t[p.Per() - 1] == if d + 1 < p.difat then p.DifatStart() + d + 1 else END_OF_CHAIN
  {
    var listed := DifatListed(p, d);
    var next: nat := if d + 1 < p.difat then p.DifatStart() + d + 1 else END_OF_CHAIN;
    listed + [next]
  }

  function DifatParts(p: Plan): (t: seq<seq<nat>>)
    ensures |t| == p.difat && forall d :: 0 <= d < |t| ==> t[d] == DifatSector(p, d)
  {
    seq(p.difat, d requires 0 <= d < p.difat => DifatSector(p, d))
  }

  function DifatTable(p: Plan): (t: seq<nat>)
    ensures |t| == p.difat * p.Per()
  {
    JoinUniform(DifatParts(p), p.Per());
    Join(DifatParts(p))
  }

  ghost predicate Words32(t: seq<nat>) {
    forall i :: 0 <= i < |t| ==> t[i] < LIMIT32
  }

  lemma {:induction false} JoinWords(parts: seq<seq<nat>>)
    requires forall d :: 0 <= d < |parts| ==> Words32(parts[d])
    ensures Words32(Join(parts))
  {
    if parts != [] {
      JoinWords(parts[..|parts| - 1]);
    }
  }

  lemma {:induction false} RunWords(first: nat, count: nat)
    requires first + count <= LIMIT32
    ensures Words32(RunOf(first, count))
  {
  }

  lemma {:induction false} RunPartWords(es: seq<Entry>, i: nat, mini: bool, major: nat)
    requires i < |es| && Sum(es, |es|, mini, major) <= LIMIT32
    ensures Words32(RunOf(Sum(es, i, mini, major), Weight(es[i], mini, major)))
  {
    SumStep(es, i, mini, major);
    RunWords(Sum(es, i, mini, major), Weight(es[i], mini, major));
  }

  lemma {:induction false} StreamRunsWords(es: seq<Entry>, mini: bool, major: nat)
    requires Sum(es, |es|, mini, major) <= LIMIT32
    ensures Words32(StreamRuns(es, mini, major))
  {
    forall i | 0 <= i < |es| ensures Words32(RunParts(es, mini, major)[i]) {
      RunPartWords(es, i, mini, major);
      RunPartIs(es, |es|, i, mini, major);
    }
    JoinWords(RunParts(es, mini, major));
  }

  lemma {:induction false} WordsAppend(a: seq<nat>, b: seq<nat>)
    requires Words32(a) && Words32(b)
    ensures Words32(a + b)
  {
  }

  lemma {:induction false} FatTableFits(es: seq<Entry>, p: Plan)
    requires Planned(es, p)
    ensures Words32(FatTable(es, p))
  {
    StreamRunsWords(es, false, p.major);
    RunWords(p.streams, p.MiniSectors());
    RunWords(p.MiniIndexStart(), p.MiniIndexSectors());
    RunWords(p.DirStart(), p.DirSectors());
    JoinWords(FatParts(es, p));
  }

  lemma {:induction false} MiniTableFits(es: seq<Entry>, p: Plan)
    requires Planned(es, p)
    ensures Words32(MiniTable(es, p))
  {
    StreamRunsWords(es, true, p.major);
    UnitsBounds(p.minis, p.Per());
    WordsAppend(StreamRuns(es, true, p.major), Repeat(p.MiniIndexSectors() * p.Per() - p.minis, FREE_SECTOR));
  }

  lemma {:induction false} ListsFit(p: Plan)
    requires p.Total() <= MAX_SECTORS
    ensures Words32(DifatTable(p)) && Words32(HeaderList(p))
  {
    forall d | 0 <= d < p.difat ensures Words32(DifatSector(p, d)) {
    }
    JoinWords(DifatParts(p));
  }
}
