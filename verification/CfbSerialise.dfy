/** The writer's passes over its buffers: chains set in the indexes, streams copied to their places,
    regions stored one by one. Together they produce exactly the specified file. */
module CfbSerialise {
  import opened Bytes
  import opened CfbModel
  import opened CfbDirectory
  import opened CfbLayout
  import opened CfbEncoding
  import opened CfbImage
  import opened CfbFile

  // ── Layout ─────────────────────────────────────────────────

  /** Units used by the streams of one class. */
  method TotalUnits(es: seq<Entry>, mini: bool, major: nat) returns (units: nat)
    ensures units == Sum(es, |es|, mini, major)
  {
    units := 0;
    for i := 0 to |es|
      invariant units == Sum(es, i, mini, major)
    {
      var count := CountWeight(es[i], mini, major);
      units := units + count;
    }
  }

  /** The least solution is unique. */
  lemma {:induction false} LeastIs(others: nat, per: nat, fat: nat)
    requires EntriesPerSector(per) && fat == NextFat(others, fat, per)
    requires forall y :: 0 <= y < fat ==> NextFat(others, y, per) != y
    ensures fat == Least(others, per)
  {
    LeastSolves(others, per);
  }

  /** The layout pass; packages over the sector limit are refused. */
  method ComputeLayout(es: seq<Entry>, major: nat) returns (ok: bool, p: Plan)
    requires PlanOf(es, major).DifatStart() < LIMIT64
    ensures p == PlanOf(es, major) && (ok <==> p.Total() <= MAX_SECTORS)
  {
    var streams := TotalUnits(es, false, major);
    var minis := TotalUnits(es, true, major);
    p := Plan(major, streams, minis, |es|, 0, 0);
    var fat, difat, steps := SolveIndex(p.DifatStart(), p.Per());
    LeastIs(p.DifatStart(), p.Per(), fat);
    p := p.(fat := fat, difat := difat);
    ok := p.Total() <= MAX_SECTORS;
  }

  // ── Indexes ────────────────────────────────────────────────

  /** An index filled from its start; the rest is free. */
  ghost predicate Filled(a: seq<nat>, done: seq<nat>) {
    && |done| <= |a| && a[..|done|] == done
    && forall i :: |done| <= i < |a| ==> a[i] == FREE_SECTOR
  }

  /** Overwrites part of an index by the chain that leads through that part and ends there. */
  method SetRun(index: array<nat>, first: nat, count: nat)
    requires first + count <= index.Length
    modifies index
    ensures index[..] == old(index[..first]) + RunOf(first, count) + old(index[first + count..])
  {
    for i := 0 to count
      invariant forall k :: 0 <= k < i ==> index[first + k] == RunOf(first, count)[k]
      invariant forall k :: 0 <= k < index.Length && !(first <= k < first + i) ==> index[k] == old(index[k])
    {
      index[first + i] := if i + 1 == count then END_OF_CHAIN else first + i + 1;
    }
  }

  /** Extends the filled part of an index by a run. */
  method AddRun(index: array<nat>, count: nat, ghost done: seq<nat>, at: nat)
    requires Filled(index[..], done) && at == |done| && at + count <= index.Length
    modifies index
    ensures Filled(index[..], done + RunOf(at, count))
  {
    ghost var before := index[..];
    SetRun(index, at, count);
    RunAdded(before, index[..], done, RunOf(at, count));
  }

  lemma {:induction false} RunAdded(before: seq<nat>, after: seq<nat>, done: seq<nat>, run: seq<nat>)
    requires Filled(before, done) && |done| + |run| <= |before|
    requires after == before[..|done|] + run + before[|done| + |run|..]
    ensures Filled(after, done + run)
  {
  }

  /** Marks sectors that belong to no chain. */
  method AddMarks(index: array<nat>, count: nat, mark: nat, ghost done: seq<nat>, at: nat)
    requires Filled(index[..], done) && at == |done| && at + count <= index.Length
    modifies index
    ensures Filled(index[..], done + Repeat(count, mark))
  {
    for i := 0 to count
      invariant forall k :: 0 <= k < index.Length ==> index[k] == if at <= k < at + i then mark else old(index[k])
    {
      index[at + i] := mark;
    }
    RunAdded(old(index[..]), index[..], done, Repeat(count, mark));
  }

  /** The chains of the first i entries. */
  ghost function RunsTo(es: seq<Entry>, i: nat, mini: bool, major: nat): (r: seq<nat>)
    requires i <= |es|
    ensures |r| == Sum(es, i, mini, major)
  {
    if i == 0 then [] else RunsTo(es, i - 1, mini, major) + RunOf(Sum(es, i - 1, mini, major), Weight(es[i - 1], mini, major))
  }

  lemma {:induction false} RunsJoin(es: seq<Entry>, i: nat, mini: bool, major: nat)
    requires i <= |es|
    ensures RunsTo(es, i, mini, major) == Join(RunPartsTo(es, i, mini, major))
  {
    if i > 0 {
      RunsJoin(es, i - 1, mini, major);
      JoinSnoc(RunPartsTo(es, i - 1, mini, major), RunOf(Sum(es, i - 1, mini, major), Weight(es[i - 1], mini, major)));
    }
  }

  /** Units of one stream. */
  method CountWeight(e: Entry, mini: bool, major: nat) returns (count: nat)
    ensures count == Weight(e, mini, major)
  {
    if !InClass(e, mini) { return 0; }
    count := CountUnits(|e.data|, UnitOf(mini, major));
  }

  method AddStream(index: array<nat>, es: seq<Entry>, i: nat, mini: bool, major: nat, at: nat) returns (next: nat)
    requires i < |es| && at == Sum(es, i, mini, major) && Filled(index[..], RunsTo(es, i, mini, major))
    requires Sum(es, |es|, mini, major) <= index.Length
    modifies index
    ensures next == Sum(es, i + 1, mini, major) && Filled(index[..], RunsTo(es, i + 1, mini, major))
  {
    var count := CountWeight(es[i], mini, major);
    SumStep(es, i, mini, major);
    AddRun(index, count, RunsTo(es, i, mini, major), at);
    next := at + count;
  }

  /** The chains of the streams of one class. */
  method AddStreams(index: array<nat>, es: seq<Entry>, mini: bool, major: nat)
    requires Filled(index[..], []) && Sum(es, |es|, mini, major) <= index.Length
    modifies index
    ensures Filled(index[..], StreamRuns(es, mini, major))
  {
    var at: nat := 0;
    for i := 0 to |es|
      invariant at == Sum(es, i, mini, major) && Filled(index[..], RunsTo(es, i, mini, major))
    {
      at := AddStream(index, es, i, mini, major, at);
    }
    RunsJoin(es, |es|, mini, major);
  }

  lemma {:induction false} FatPartsJoin(t: seq<seq<nat>>)
    requires |t| == 7
    ensures Join(t) == t[0] + t[1] + t[2] + t[3] + t[4] + t[5] + t[6]
  {
    assert t[..6][..5] == t[..5] && t[..5][..4] == t[..4] && t[..4][..3] == t[..3] && t[..3][..2] == t[..2] && t[..2][..1] == t[..1];
    assert t[..1][..0] == [];
    assert Join(t[..1]) == t[0];
    assert Join(t[..2]) == t[0] + t[1];
    assert Join(t[..3]) == t[0] + t[1] + t[2];
    assert Join(t[..4]) == t[0] + t[1] + t[2] + t[3];
    assert Join(t[..5]) == t[0] + t[1] + t[2] + t[3] + t[4];
    assert Join(t[..6]) == t[0] + t[1] + t[2] + t[3] + t[4] + t[5];
  }

  lemma {:induction false} FilledWhole(a: seq<nat>, done: seq<nat>, n: nat)
    requires Filled(a, done) && |a| == |done| + n
    ensures a == done + Repeat(n, FREE_SECTOR)
  {
  }

  /** The chains of every region. */
  method AddChains(fat: array<nat>, es: seq<Entry>, p: Plan, ghost t: seq<seq<nat>>)
    requires p.Solved() && p.streams == Sum(es, |es|, false, p.major) && t == FatParts(es, p)
    requires Filled(fat[..], []) && p.Total() <= fat.Length
    modifies fat
    ensures Filled(fat[..], t[0] + t[1] + t[2] + t[3])
  {
    AddStreams(fat, es, false, p.major);
    AddRun(fat, p.MiniSectors(), t[0], p.streams);
    AddRun(fat, p.MiniIndexSectors(), t[0] + t[1], p.MiniIndexStart());
    AddRun(fat, p.DirSectors(), t[0] + t[1] + t[2], p.DirStart());
  }

  /** The allocation index. */
  method BuildFatTable(es: seq<Entry>, p: Plan) returns (fat: array<nat>)
    requires p.Solved() && p.streams == Sum(es, |es|, false, p.major)
    ensures fresh(fat) && fat[..] == FatTable(es, p)
  {
    SolvedCovers(p);
    fat := new nat[p.fat * p.Per()](_ => FREE_SECTOR);
    ghost var t := FatParts(es, p);
    AddChains(fat, es, p, t);
    ghost var done := t[0] + t[1] + t[2] + t[3];
    AddMarks(fat, p.difat, DIFAT_SECTOR, done, p.DifatStart());
    AddMarks(fat, p.fat, FAT_SECTOR, done + t[4], p.FatStart());
    FilledWhole(fat[..], done + t[4] + t[5], p.fat * p.Per() - p.Total());
    FatPartsJoin(t);
  }

  /** The mini index. */
  method BuildMiniTable(es: seq<Entry>, p: Plan) returns (index: array<nat>)
    requires p.minis == Sum(es, |es|, true, p.major)
    ensures fresh(index) && index[..] == MiniTable(es, p)
  {
    UnitsBounds(p.minis, p.Per());
    index := new nat[p.MiniIndexSectors() * p.Per()](_ => FREE_SECTOR);
    AddStreams(index, es, true, p.major);
    FilledWhole(index[..], StreamRuns(es, true, p.major), p.MiniIndexSectors() * p.Per() - p.minis);
  }

  // ── The file ───────────────────────────────────────────────

  /** A table of 32-bit fields, stored one by one. */
  method PutWords(out: array<Byte>, at: nat, words: seq<nat>)
    requires Words32(words) && at + 4 * |words| <= out.Length
    modifies out
    ensures out[..] == Put(old(out[..]), at, Encode32(words))
  {
    ghost var was := out[..];
    for i := 0 to |words|
      invariant out[..] == Put(was, at, Encode32(words[..i]))
    {
      PutBytes(out, at + 4 * i, LE32(words[i]));
      WordStored(was, at, words, i);
    }
    assert words[..|words|] == words;
  }

  lemma {:induction false} WordStored(was: Buffer, at: nat, words: seq<nat>, i: nat)
    requires Words32(words) && at + 4 * |words| <= |was| && i < |words|
    ensures Put(Put(was, at, Encode32(words[..i])), at + 4 * i, LE32(words[i])) == Put(was, at, Encode32(words[..i + 1]))
  {
    PutAdjacent(was, at, Encode32(words[..i]), LE32(words[i]));
    assert Pieces32(words[..i + 1]) == Pieces32(words[..i]) + [LE32(words[i])];
    JoinSnoc(Pieces32(words[..i]), LE32(words[i]));
  }

  // ── Streams ────────────────────────────────────────────────

  /** A region that holds `done` and is still blank after it. */
  ghost predicate Grown(s: Buffer, base: nat, done: Buffer, end: nat) {
    && base + |done| <= end <= |s| && HoldsAt(s, base, done)
    && forall k :: base + |done| <= k < end ==> s[k] == 0
  }

  lemma {:induction false} GrownMore(s: Buffer, base: nat, done: Buffer, end: nat, data: Buffer, pad: nat)
    requires Grown(s, base, done, end) && base + |done| + |data| + pad <= end
    ensures Grown(Put(s, base + |done|, data), base, done + (data + Zeros(pad)), end)
  {
    var t := Put(s, base + |done|, data);
    var more := done + (data + Zeros(pad));
    forall k | 0 <= k < |more| ensures t[base + k] == more[k] {
      if k < |done| {
        assert s[base + k] == s[base..base + |done|][k];
      } else if k < |done| + |data| {
        assert t[base + k] == t[base + |done|..base + |done| + |data|][k - |done|];
      }
    }
    assert t[base..base + |more|] == more;
  }

  lemma {:induction false} GrownApart(s: Buffer, base: nat, done: Buffer, end: nat, at: nat, piece: Buffer)
    requires Grown(s, base, done, end) && at + |piece| <= |s| && (end <= at || at + |piece| <= base)
    ensures Grown(Put(s, at, piece), base, done, end)
  {
    PutApart(s, at, piece, base, base + |done|);
  }

  /** The region of one class up to the i-th entry. */
  ghost function DataTo(es: seq<Entry>, i: nat, mini: bool, major: nat): Buffer
    requires i <= |es|
  {
    if i == 0 then [] else DataTo(es, i - 1, mini, major) + Padded(es[i - 1], mini, major)
  }

  lemma {:induction false} DataToLength(es: seq<Entry>, i: nat, mini: bool, major: nat)
    requires i <= |es|
    ensures |DataTo(es, i, mini, major)| == Sum(es, i, mini, major) * UnitOf(mini, major)
  {
    if i > 0 {
      DataToLength(es, i - 1, mini, major);
      Distribute(Sum(es, i - 1, mini, major), Weight(es[i - 1], mini, major), UnitOf(mini, major));
    }
  }

  lemma {:induction false} DataToNext(es: seq<Entry>, i: nat, mini: bool, major: nat, parts: seq<Buffer>)
    requires i < |es| == |parts| && parts[i] == Padded(es[i], mini, major) && DataTo(es, i, mini, major) == Join(parts[..i])
    ensures DataTo(es, i + 1, mini, major) == Join(parts[..i + 1])
  {
    JoinNext(parts, i);
  }

  lemma {:induction false} DataToJoin(es: seq<Entry>, i: nat, mini: bool, major: nat)
    requires i <= |es|
    ensures DataTo(es, i, mini, major) == Join(DataParts(es, mini, major)[..i])
  {
    if i > 0 {
      DataToJoin(es, i - 1, mini, major);
      DataToNext(es, i - 1, mini, major, DataParts(es, mini, major));
    }
  }

  lemma {:induction false} DataToWhole(es: seq<Entry>, mini: bool, major: nat)
    ensures DataTo(es, |es|, mini, major) == DataRegion(es, mini, major)
  {
    DataToJoin(es, |es|, mini, major);
    assert DataParts(es, mini, major)[..|es|] == DataParts(es, mini, major);
  }

  lemma {:induction false} DataToGrows(es: seq<Entry>, i: nat, j: nat, mini: bool, major: nat)
    requires i <= j <= |es|
    ensures |DataTo(es, i, mini, major)| <= |DataTo(es, j, mini, major)|
    decreases j - i
  {
    if i < j { DataToGrows(es, i, j - 1, mini, major); }
  }

  lemma {:induction false} PaddedTo(es: seq<Entry>, i: nat, mini: bool, major: nat) returns (pad: nat)
    requires i < |es| && InClass(es[i], mini)
    ensures DataTo(es, i + 1, mini, major) == DataTo(es, i, mini, major) + (es[i].data + Zeros(pad))
  {
    WeightCovers(es[i], mini, major);
    pad := Weight(es[i], mini, major) * UnitOf(mini, major) - |es[i].data|;
  }

  /** Copies one stream into its region. */
  method CopyStream(out: array<Byte>, ghost base: nat, at: nat, end: nat, es: seq<Entry>, i: nat, mini: bool, major: nat)
    requires i < |es| && InClass(es[i], mini) && at == base + |DataTo(es, i, mini, major)|
    requires base + |DataTo(es, |es|, mini, major)| <= end
    requires Grown(out[..], base, DataTo(es, i, mini, major), end)
    modifies out
    ensures Grown(out[..], base, DataTo(es, i + 1, mini, major), end)
    ensures at + |es[i].data| <= end <= out.Length && out[..] == Put(old(out[..]), at, es[i].data)
  {
    hide DataTo, Padded, Zeros, InClass, Put;
    DataToGrows(es, i + 1, |es|, mini, major);
    ghost var pad := PaddedTo(es, i, mini, major);
    GrownMore(out[..], base, DataTo(es, i, mini, major), end, es[i].data, pad);
    PutBytes(out, at, es[i].data);
  }

  /** Both regions hold the streams of the first i entries. */
  ghost predicate Copied(s: Buffer, es: seq<Entry>, i: nat, major: nat, base: nat, miniBase: nat, end: nat)
    requires i <= |es|
  {
    && Grown(s, base, DataTo(es, i, false, major), miniBase)
    && Grown(s, miniBase, DataTo(es, i, true, major), end)
  }

  lemma {:induction false} NothingToCopy(es: seq<Entry>, i: nat, mini: bool, major: nat)
    requires i < |es| && !InClass(es[i], mini)
    ensures DataTo(es, i + 1, mini, major) == DataTo(es, i, mini, major)
  {
  }

  /** Copies the stream of one entry: a small one into the mini stream, another into its sectors. */
  method CopyOne(out: array<Byte>, es: seq<Entry>, i: nat, major: nat, ghost base: nat, miniBase: nat, end: nat, at: nat, miniAt: nat)
    requires i < |es| && at == base + |DataTo(es, i, false, major)| && miniAt == miniBase + |DataTo(es, i, true, major)|
    requires base + |DataTo(es, |es|, false, major)| <= miniBase && miniBase + |DataTo(es, |es|, true, major)| <= end
    requires Copied(out[..], es, i, major, base, miniBase, end)
    modifies out
    ensures Copied(out[..], es, i + 1, major, base, miniBase, end)
    ensures forall k :: 0 <= k < base || end <= k < out.Length ==> out[k] == old(out[k])
  {
    ghost var was := out[..];
    if InClass(es[i], true) {
      CopyStream(out, miniBase, miniAt, end, es, i, true, major);
      GrownApart(was, base, DataTo(es, i, false, major), miniBase, miniAt, es[i].data);
      NothingToCopy(es, i, false, major);
    } else if InClass(es[i], false) {
      CopyStream(out, base, at, miniBase, es, i, false, major);
      GrownApart(was, miniBase, DataTo(es, i, true, major), end, at, es[i].data);
      NothingToCopy(es, i, true, major);
    } else {
      NothingToCopy(es, i, false, major);
      NothingToCopy(es, i, true, major);
    }
  }

  /** Copies every stream. */
  method CopyStreams(out: array<Byte>, es: seq<Entry>, major: nat, base: nat, miniBase: nat, end: nat)
    requires base + |DataTo(es, |es|, false, major)| <= miniBase && miniBase + |DataTo(es, |es|, true, major)| <= end
    requires end <= out.Length && forall k :: base <= k < end ==> out[k] == 0
    modifies out
    ensures Copied(out[..], es, |es|, major, base, miniBase, end)
    ensures forall k :: 0 <= k < base || end <= k < out.Length ==> out[k] == old(out[k])
  {
    var at: nat, miniAt: nat := base, miniBase;
    for i := 0 to |es|
      invariant at == base + |DataTo(es, i, false, major)| && miniAt == miniBase + |DataTo(es, i, true, major)|
      invariant Copied(out[..], es, i, major, base, miniBase, end)
      invariant forall k :: 0 <= k < base || end <= k < out.Length ==> out[k] == old(out[k])
    {
      CopyOne(out, es, i, major, base, miniBase, end, at, miniAt);
      at, miniAt := NextPlaces(es, i, major, at, miniAt);
    }
  }

  method NextPlaces(es: seq<Entry>, i: nat, major: nat, at: nat, miniAt: nat) returns (next: nat, nextMini: nat)
    requires i < |es|
    ensures next - at == |DataTo(es, i + 1, false, major)| - |DataTo(es, i, false, major)|
    ensures nextMini - miniAt == |DataTo(es, i + 1, true, major)| - |DataTo(es, i, true, major)|
  {
    var n := CountWeight(es[i], false, major);
    var m := CountWeight(es[i], true, major);
    next, nextMini := at + n * UnitOf(false, major), miniAt + m * UnitOf(true, major);
  }

  // ── Regions ────────────────────────────────────────────────

  lemma {:induction false} PieceStored(was: Buffer, now: Buffer, at: nat, next: nat, pieces: seq<Buffer>, i: nat)
    requires i < |pieces| && at + |Join(pieces)| <= |was|
    requires |Join(pieces[..i])| <= |Join(pieces)| && next == at + |Join(pieces[..i])| && now == Put(was, at, Join(pieces[..i]))
    ensures |Join(pieces[..i + 1])| <= |Join(pieces)| && next + |pieces[i]| == at + |Join(pieces[..i + 1])|
    ensures Put(now, next, pieces[i]) == Put(was, at, Join(pieces[..i + 1]))
  {
    JoinSlice(pieces, i);
    JoinNext(pieces, i);
    PutAdjacent(was, at, Join(pieces[..i]), pieces[i]);
  }

  /** The first i pieces have been stored. */
  ghost predicate StoredTo(was: Buffer, now: Buffer, at: nat, next: nat, pieces: seq<Buffer>, i: nat)
    requires i <= |pieces|
  {
    && at + |Join(pieces)| <= |was| && |Join(pieces[..i])| <= |Join(pieces)|
    && next == at + |Join(pieces[..i])| && now == Put(was, at, Join(pieces[..i]))
  }

  lemma {:induction false} StoredFrom(was: Buffer, at: nat, pieces: seq<Buffer>)
    requires at + |Join(pieces)| <= |was|
    ensures StoredTo(was, was, at, at, pieces, 0)
  {
    assert pieces[..0] == [];
  }

  lemma {:induction false} StoredAll(was: Buffer, now: Buffer, at: nat, next: nat, pieces: seq<Buffer>)
    requires StoredTo(was, now, at, next, pieces, |pieces|)
    ensures now == Put(was, at, Join(pieces))
  {
    assert pieces[..|pieces|] == pieces;
  }

  /** Stores pieces one after another. */
  method PutPieces(out: array<Byte>, at: nat, pieces: seq<Buffer>)
    requires at + |Join(pieces)| <= out.Length
    modifies out
    ensures out[..] == Put(old(out[..]), at, Join(pieces))
  {
    ghost var was := out[..];
    StoredFrom(was, at, pieces);
    var next: nat := at;
    for i := 0 to |pieces|
      invariant StoredTo(was, out[..], at, next, pieces, i)
    {
      PieceStored(was, out[..], at, next, pieces, i);
      PutBytes(out, next, pieces[i]);
      next := next + |pieces[i]|;
    }
    StoredAll(was, out[..], at, next, pieces);
  }

  lemma {:induction false} EncodeAppend(a: seq<nat>, b: seq<nat>)
    requires Words32(a) && Words32(b)
    ensures Words32(a + b) && Encode32(a + b) == Encode32(a) + Encode32(b)
    decreases |b|
  {
    if b == [] {
      assert a + b == a;
    } else {
      var n := |b| - 1;
      EncodeAppend(a, b[..n]);
      assert a + b == (a + b[..n]) + [b[n]] && b == b[..n] + [b[n]];
      EncodeSnoc(a + b[..n], b[n]);
      EncodeSnoc(b[..n], b[n]);
    }
  }

  lemma {:induction false} EncodeSnoc(a: seq<nat>, w: nat)
    requires Words32(a) && w < LIMIT32
    ensures Words32(a + [w]) && Encode32(a + [w]) == Encode32(a) + LE32(w)
  {
    assert Pieces32(a + [w]) == Pieces32(a) + [LE32(w)];
    JoinSnoc(Pieces32(a), LE32(w));
  }

  /** The extended index sectors, each as its bytes. */
  function DifatPieces(p: Plan): (b: seq<Buffer>)
    requires p.Total() <= MAX_SECTORS
    ensures |b| == p.difat
  {
    seq(p.difat, d requires 0 <= d < p.difat => DifatPiece(p, d))
  }

  function DifatPiece(p: Plan, d: nat): Buffer
    requires p.Total() <= MAX_SECTORS && d < p.difat
  {
    SectorWords32(p, d);
    Encode32(DifatSector(p, d))
  }

  lemma {:induction false} SectorWords32(p: Plan, d: nat)
    requires d < p.difat && p.Total() <= MAX_SECTORS
    ensures Words32(DifatSector(p, d))
  {
  }

  /** Encoding tables one by one is encoding them joined. */
  lemma {:induction false} EncodeJoin(tables: seq<seq<nat>>, pieces: seq<Buffer>)
    requires |tables| == |pieces| && forall d :: 0 <= d < |tables| ==> Words32(tables[d]) && pieces[d] == Encode32(tables[d])
    ensures Words32(Join(tables)) && Encode32(Join(tables)) == Join(pieces)
  {
    if tables != [] {
      var n := |tables| - 1;
      EncodeJoin(tables[..n], pieces[..n]);
      EncodeAppend(Join(tables[..n]), tables[n]);
    }
  }

  lemma {:induction false} DifatPiecesJoin(p: Plan)
    requires p.Total() <= MAX_SECTORS
    ensures Words32(DifatTable(p)) && Join(DifatPieces(p)) == Encode32(DifatTable(p))
  {
    forall d | 0 <= d < p.difat ensures Words32(DifatParts(p)[d]) && DifatPieces(p)[d] == Encode32(DifatParts(p)[d]) {
      SectorWords32(p, d);
    }
    EncodeJoin(DifatParts(p), DifatPieces(p));
  }

  // ── The whole file ─────────────────────────────────────────

  ghost function Offset(p: Plan, k: nat): nat
    requires k < 7
  {
    if k == 0 then 0 else SectorStart(p.major, RegionStart(p, k - 1))
  }

  /** The file holds the k-th region in its place. */
  ghost predicate Held(s: Buffer, r: seq<Buffer>, p: Plan, k: nat)
    requires |r| == 7 && k < 7
  {
    HoldsAt(s, Offset(p, k), r[k])
  }

  lemma {:induction false} OffsetsRise(r: seq<Buffer>, p: Plan, k: nat)
    requires Sized(r, p) && k < 7
    ensures |Join(r[..k])| == Offset(p, k) && |Join(r[..k + 1])| == Offset(p, k) + |r[k]|
  {
    JoinStep(r, k);
    if k == 0 {
      assert r[..0] == [];
    } else {
      OffsetOf(r, p, k);
    }
  }

  lemma {:induction false} OffsetsApart(r: seq<Buffer>, p: Plan, j: nat, k: nat)
    requires Sized(r, p) && j < k < 7
    ensures Offset(p, j) + |r[j]| <= Offset(p, k)
    decreases k
  {
    OffsetsRise(r, p, j);
    OffsetsRise(r, p, k);
    OffsetsRise(r, p, k - 1);
    if j < k - 1 { OffsetsApart(r, p, j, k - 1); }
  }

  lemma {:induction false} HeldStays(s: Buffer, r: seq<Buffer>, p: Plan, j: nat, k: nat)
    requires Sized(r, p) && j < 7 && k < 7 && j != k && Held(s, r, p, j) && Offset(p, k) + |r[k]| <= |s|
    ensures Held(Put(s, Offset(p, k), r[k]), r, p, j)
  {
    if j < k { OffsetsApart(r, p, j, k); } else { OffsetsApart(r, p, k, j); }
    PutApart(s, Offset(p, k), r[k], Offset(p, j), Offset(p, j) + |r[j]|);
  }

  /** Writing one region keeps those already written. */
  lemma {:induction false} RegionPut(s: Buffer, r: seq<Buffer>, p: Plan, k: nat, held: set<nat>)
    requires Sized(r, p) && k < 7 && k !in held && Offset(p, k) + |r[k]| <= |s|
    requires forall j :: j in held ==> j < 7 && Held(s, r, p, j)
    ensures forall j :: j in held + {k} ==> Held(Put(s, Offset(p, k), r[k]), r, p, j)
  {
    forall j | j in held ensures Held(Put(s, Offset(p, k), r[k]), r, p, j) {
      HeldStays(s, r, p, j, k);
    }
  }

  lemma {:induction false} PrefixHeld(s: Buffer, r: seq<Buffer>, p: Plan, k: nat)
    requires Sized(r, p) && k <= 7 && |s| == |Join(r)| && forall j :: 0 <= j < k ==> Held(s, r, p, j)
    ensures |Join(r[..k])| <= |s| && s[..|Join(r[..k])|] == Join(r[..k])
  {
    if k == 0 {
      assert r[..0] == [];
    } else {
      PrefixHeld(s, r, p, k - 1);
      OffsetsRise(r, p, k - 1);
      assert Held(s, r, p, k - 1);
      assert r[..k] == r[..k - 1] + [r[k - 1]];
      JoinSnoc(r[..k - 1], r[k - 1]);
      TwoSlices(s, Offset(p, k - 1), Offset(p, k - 1) + |r[k - 1]|);
    }
  }

  lemma {:induction false} TwoSlices(s: Buffer, a: nat, b: nat)
    requires a <= b <= |s|
    ensures s[..a] + s[a..b] == s[..b]
  {
  }

  /** A file that holds every region in its place is the regions joined. */
  lemma {:induction false} AllHeld(s: Buffer, r: seq<Buffer>, p: Plan)
    requires Sized(r, p) && |s| == SectorStart(p.major, p.Total()) && forall j :: 0 <= j < 7 ==> Held(s, r, p, j)
    ensures s == Join(r)
  {
    WholeSize(r, p);
    PrefixHeld(s, r, p, 7);
    assert r[..7] == r;
  }

  /** A file of the right size that holds the regions in `held`. */
  ghost predicate Stage(s: Buffer, r: seq<Buffer>, p: Plan, held: set<nat>)
    requires |r| == 7
  {
    |s| == SectorStart(p.major, p.Total()) && forall j :: j in held ==> j < 7 && Held(s, r, p, j)
  }

  lemma {:induction false} RegionInside(r: seq<Buffer>, p: Plan, k: nat)
    requires Sized(r, p) && k < 7
    ensures Offset(p, k) + |r[k]| <= SectorStart(p.major, p.Total())
  {
    OffsetsRise(r, p, k);
    JoinSlice(r, k);
    WholeSize(r, p);
  }

  lemma {:induction false} StagePut(s: Buffer, r: seq<Buffer>, p: Plan, k: nat, held: set<nat>)
    requires Sized(r, p) && Stage(s, r, p, held) && k < 7 && k !in held
    ensures Offset(p, k) + |r[k]| <= |s| && Stage(Put(s, Offset(p, k), r[k]), r, p, held + {k})
  {
    RegionInside(r, p, k);
    RegionPut(s, r, p, k, held);
  }

  lemma {:induction false} GrownHolds(s: Buffer, base: nat, done: Buffer, end: nat, pad: nat)
    requires Grown(s, base, done, end) && base + |done| + pad == end
    ensures HoldsAt(s, base, done + Zeros(pad))
  {
    assert s[base..end] == s[base..base + |done|] + s[base + |done|..end];
    assert s[base + |done|..end] == Zeros(pad);
  }

  /** Both regions of stream data are in their places. */
  ghost predicate StreamsHeld(s: Buffer, es: seq<Entry>, p: Plan)
    requires p.minis == Sum(es, |es|, true, p.major)
  {
    HoldsAt(s, Offset(p, 1), DataRegion(es, false, p.major)) && HoldsAt(s, Offset(p, 2), MiniRegion(es, p))
  }

  /** A zeroed file with the stream data in it. */
  method StoreStreams(es: seq<Entry>, p: Plan, size: nat) returns (out: array<Byte>)
    requires p.streams == Sum(es, |es|, false, p.major) && p.minis == Sum(es, |es|, true, p.major)
    requires SectorStart(p.major, p.MiniIndexStart()) <= size
    ensures fresh(out) && out.Length == size && StreamsHeld(out[..], es, p)
  {
    hide DataRegion, SectorStart, Sum, Grown;
    out := new Byte[size](_ => 0);
    DataToWhole(es, false, p.major);
    DataToWhole(es, true, p.major);
    MiniRegionFits(p);
    StreamsTile(p);
    var base, miniBase, end := SectorStart(p.major, 0), SectorStart(p.major, p.streams), SectorStart(p.major, p.MiniIndexStart());
    CopyStreams(out, es, p.major, base, miniBase, end);
    GrownHolds(out[..], base, DataRegion(es, false, p.major), miniBase, 0);
    assert DataRegion(es, false, p.major) + Zeros(0) == DataRegion(es, false, p.major);
    HoldsThere(out[..], base, Offset(p, 1), DataRegion(es, false, p.major));
    GrownHolds(out[..], miniBase, DataRegion(es, true, p.major), end, p.MiniSectors() * p.Unit() - p.minis * MINI_SECTOR_SIZE);
    HoldsThere(out[..], miniBase, Offset(p, 2), MiniRegion(es, p));
  }

  lemma {:induction false} StreamsTile(p: Plan)
    ensures SectorStart(p.major, 0) + p.streams * p.Unit() == SectorStart(p.major, p.streams)
    ensures SectorStart(p.major, p.streams) + p.MiniSectors() * p.Unit() == SectorStart(p.major, p.MiniIndexStart())
  {
    Distribute(p.streams, p.MiniSectors(), p.Unit());
  }

  /** The mini index. */
  method StoreMiniIndex(out: array<Byte>, es: seq<Entry>, p: Plan, at: nat)
    requires Planned(es, p) && at + |MiniIndexRegion(es, p)| <= out.Length
    modifies out
    ensures out[..] == Put(old(out[..]), at, MiniIndexRegion(es, p))
  {
    var index := BuildMiniTable(es, p);
    MiniTableFits(es, p);
    PutWords(out, at, index[..]);
  }

  method StoreDirectory(out: array<Byte>, es: seq<Entry>, p: Plan, at: nat)
    requires Planned(es, p) && at + |DirRegion(es, p)| <= out.Length
    modifies out
    ensures out[..] == Put(old(out[..]), at, DirRegion(es, p))
  {
    PutPieces(out, at, DirBlocks(es, p));
  }

  method StoreFat(out: array<Byte>, es: seq<Entry>, p: Plan, at: nat)
    requires Planned(es, p) && at + |FatRegion(es, p)| <= out.Length
    modifies out
    ensures out[..] == Put(old(out[..]), at, FatRegion(es, p))
  {
    var fat := BuildFatTable(es, p);
    FatTableFits(es, p);
    PutWords(out, at, fat[..]);
  }

  method StoreDifat(out: array<Byte>, p: Plan, at: nat)
    requires p.Total() <= MAX_SECTORS && at + |DifatRegion(p)| <= out.Length
    modifies out
    ensures out[..] == Put(old(out[..]), at, DifatRegion(p))
  {
    DifatPiecesJoin(p);
    PutPieces(out, at, DifatPieces(p));
  }

  method StoreHeader(out: array<Byte>, es: seq<Entry>, seed: Seed, p: Plan)
    requires Planned(es, p) && SeedFits(seed) && seed.major == p.major && |HeadRegion(es, seed, p)| <= out.Length
    modifies out
    ensures out[..] == Put(old(out[..]), 0, HeadRegion(es, seed, p))
  {
    HeaderOfFits(es, p, seed.minor);
    ListsFit(p);
    PutBytes(out, 0, EncodeHeader(seed, HeaderOf(p, seed.minor), p.DirSectors(), p.fat, HeaderList(p)));
  }

  /** Where the pieces go, each inside the file. */
  lemma {:induction false} AllInside(r: seq<Buffer>, p: Plan)
    requires Sized(r, p)
    ensures forall k :: 0 <= k < 7 ==> Offset(p, k) + |r[k]| <= SectorStart(p.major, p.Total())
  {
    forall k | 0 <= k < 7 ensures Offset(p, k) + |r[k]| <= SectorStart(p.major, p.Total()) {
      RegionInside(r, p, k);
    }
  }

  /** Stream data first, then the other regions in any order, make up the file. */
  lemma {:induction false} StoredInTurn(s: Buffer, r: seq<Buffer>, p: Plan)
    requires Sized(r, p) && |s| == SectorStart(p.major, p.Total()) && Held(s, r, p, 1) && Held(s, r, p, 2)
    ensures forall k :: 0 <= k < 7 ==> Offset(p, k) + |r[k]| <= |s|
    ensures var s3 := Put(s, Offset(p, 3), r[3]); var s4 := Put(s3, Offset(p, 4), r[4]); var s6 := Put(s4, Offset(p, 6), r[6]);
      var s5 := Put(s6, Offset(p, 5), r[5]); Put(s5, Offset(p, 0), r[0]) == Join(r)
  {
    AllInside(r, p);
    var s3 := Put(s, Offset(p, 3), r[3]);
    var s4 := Put(s3, Offset(p, 4), r[4]);
    var s6 := Put(s4, Offset(p, 6), r[6]);
    var s5 := Put(s6, Offset(p, 5), r[5]);
    StagePut(s, r, p, 3, {1, 2});
    StagePut(s3, r, p, 4, {1, 2} + {3});
    StagePut(s4, r, p, 6, {1, 2} + {3} + {4});
    StagePut(s6, r, p, 5, {1, 2} + {3} + {4} + {6});
    StagePut(s5, r, p, 0, {1, 2} + {3} + {4} + {6} + {5});
    AllHeld(Put(s5, Offset(p, 0), r[0]), r, p);
  }

  lemma {:induction false} StreamsInside(p: Plan)
    ensures SectorStart(p.major, p.MiniIndexStart()) <= SectorStart(p.major, p.Total())
  {
    Multiples(p.Total(), p.MiniIndexStart(), p.Unit());
  }

  lemma {:induction false} HeldStreams(s: Buffer, es: seq<Entry>, seed: Seed, p: Plan)
    requires Planned(es, p) && SeedFits(seed) && seed.major == p.major && StreamsHeld(s, es, p)
    ensures Held(s, Regions(es, seed, p), p, 1) && Held(s, Regions(es, seed, p), p, 2)
  {
    SevenPieces(HeadRegion(es, seed, p), DataRegion(es, false, p.major), MiniRegion(es, p), MiniIndexRegion(es, p),
                DirRegion(es, p), DifatRegion(p), FatRegion(es, p));
    HeldAs(s, Regions(es, seed, p), p, 1, DataRegion(es, false, p.major));
    HeldAs(s, Regions(es, seed, p), p, 2, MiniRegion(es, p));
  }

  lemma {:induction false} SevenPieces(a: Buffer, b: Buffer, c: Buffer, d: Buffer, e: Buffer, f: Buffer, g: Buffer)
    ensures var r := [a, b, c, d, e, f, g]; r[0] == a && r[1] == b && r[2] == c && r[3] == d && r[4] == e && r[5] == f && r[6] == g
  {
  }

  lemma {:induction false} HeldAs(s: Buffer, r: seq<Buffer>, p: Plan, k: nat, piece: Buffer)
    requires |r| == 7 && k < 7 && r[k] == piece && HoldsAt(s, Offset(p, k), piece)
    ensures Held(s, r, p, k)
  {
  }

  /** The regions after the stream data. */
  method StoreRegions(out: array<Byte>, es: seq<Entry>, seed: Seed, p: Plan, ghost r: seq<Buffer>)
    requires Planned(es, p) && SeedFits(seed) && seed.major == p.major && r == Regions(es, seed, p) && Sized(r, p)
    requires out.Length == SectorStart(p.major, p.Total()) && Held(out[..], r, p, 1) && Held(out[..], r, p, 2)
    modifies out
    ensures out[..] == Join(r)
  {
    StoredInTurn(out[..], r, p);
    StoreMiniIndex(out, es, p, SectorStart(p.major, p.MiniIndexStart()));
    StoreDirectory(out, es, p, SectorStart(p.major, p.DirStart()));
    StoreFat(out, es, p, SectorStart(p.major, p.FatStart()));
    StoreDifat(out, p, SectorStart(p.major, p.DifatStart()));
    StoreHeader(out, es, seed, p);
  }

  /** Serialisation, pass by pass over one zeroed buffer, gives exactly the specified file. */
  method Serialise(es: seq<Entry>, seed: Seed, p: Plan) returns (out: array<Byte>)
    requires Planned(es, p) && SeedFits(seed) && seed.major == p.major
    ensures fresh(out) && out[..] == Image(es, seed, p)
  {
    RegionsSized(es, seed, p);
    StreamsInside(p);
    out := StoreStreams(es, p, SectorStart(p.major, p.Total()));
    HeldStreams(out[..], es, seed, p);
    StoreRegions(out, es, seed, p, Regions(es, seed, p));
  }
}
