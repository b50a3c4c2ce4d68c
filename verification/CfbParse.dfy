/** The passes of the parser as they run: chains, what they deliver is what the functions on values say. */
module CfbParse {
  import opened Bytes
  import opened CfbModel
  import opened CfbChains
  import opened CfbTree
  import opened CfbDirectory
  import opened CfbReader
  import opened CfbReadTree
  import opened CfbLayout

  // ── Tables ─────────────────────────────────────────────────

  /** The chain from a sector, followed over a fresh table of owners. */
  method FollowChain(p: Package, start: nat) returns (r: Option<seq<nat>>)
    requires p.Valid()
    ensures r == Solo(p.Fat(), p.Count(), start)
  {
    hide Walk, SectorOwners.View;
    var owner := new SectorOwners(p.Count());
    var ok, chain := WalkChain(p.Fat(), start, owner, 1);
    r := if ok then Some(chain) else None;
  }

  /** Appends the entries before the first free or end mark. */
  method AppendListed(s: Buffer, at: nat, n: nat, sectors: seq<nat>) returns (all: seq<nat>)
    requires at + 4 * n <= |s|
    ensures all == sectors + Listed(Words(s, at, n))
  {
    var words := Words(s, at, n);
    all := sectors;
    for i := 0 to n
      invariant all + Listed(words[i..]) == sectors + Listed(words)
    {
      var entry := U32(s, at + 4 * i);
      assert words[i..][0] == entry && words[i..][1..] == words[i + 1..];
      if entry == FREE_SECTOR || entry == END_OF_CHAIN {
        assert all + [] == all;
        return;
      }
      assert (all + [entry]) + Listed(words[i + 1..]) == all + ([entry] + Listed(words[i + 1..]));
      all := all + [entry];
    }
    assert words[n..] == [] && all + [] == all;
  }

  ghost function Seen(seen: seq<bool>): set<nat> {
    set i | 0 <= i < |seen| && seen[i]
  }

  ghost function Appended(sectors: seq<nat>, r: Option<seq<nat>>): Option<seq<nat>> {
    if r.Some? then Some(sectors + r.value) else None
  }

  lemma {:induction false} AppendedTwice(a: seq<nat>, b: seq<nat>, r: Option<seq<nat>>)
    ensures Appended(a, Appended(b, r)) == Appended(a + b, r)
  {
    if r.Some? { assert a + (b + r.value) == a + b + r.value; }
  }

  lemma {:induction false} DifatStep(s: Buffer, major: nat, sector: nat, left: nat, seen: set<nat>)
    requires left > 0 && sector != END_OF_CHAIN && sector != FREE_SECTOR && WholeSector(major, sector, |s|) && sector !in seen
    ensures var words := Words(s, SectorStart(major, sector), SectorSize(major) / 4);
      var per := |words| - 1;
      ListedByDifat(s, major, sector, left, seen)
        == Appended(Listed(words[..per]), ListedByDifat(s, major, words[per], left - 1, seen + {sector}))
  {
  }

  lemma {:induction false} DifatMore(s: Buffer, major: nat, sector: nat, left: nat, seen: set<nat>, all: seq<nat>)
    requires left > 0 && sector != END_OF_CHAIN && sector != FREE_SECTOR && WholeSector(major, sector, |s|) && sector !in seen
    ensures var at, per := SectorStart(major, sector), SectorSize(major) / 4 - 1;
      Appended(all, ListedByDifat(s, major, sector, left, seen))
        == Appended(all + Listed(Words(s, at, per)), ListedByDifat(s, major, U32(s, at + SectorSize(major) - 4), left - 1, seen + {sector}))
  {
    hide ListedByDifat, Listed, Words, Appended;
    var at, per := SectorStart(major, sector), SectorSize(major) / 4 - 1;
    DifatStep(s, major, sector, left, seen);
    WordsSplit(s, at, per);
    AppendedTwice(all, Listed(Words(s, at, per)), ListedByDifat(s, major, U32(s, at + SectorSize(major) - 4), left - 1, seen + {sector}));
  }

  lemma {:induction false} SeenMore(seen: seq<bool>, sector: nat)
    requires sector < |seen|
    ensures Seen(seen[sector := true]) == Seen(seen) + {sector} && (seen[sector] <==> sector in Seen(seen))
  {
  }

  /** The chain of extended index sectors; a loop in it, or a sector past the end, is a rejection. */
  method WalkDifat(s: Buffer, major: nat, first: nat, total: nat, sectors: seq<nat>) returns (r: Option<seq<nat>>)
    ensures r == Appended(sectors, ListedByDifat(s, major, first, total, {}))
  {
    hide ListedByDifat, Listed, Words, Appended, Seen;
    var seen := new bool[SectorCount(major, |s|)](_ => false);
    var sector, i, all := first, 0, sectors;
    ghost var goal := Appended(sectors, ListedByDifat(s, major, first, total, {}));
    NothingSeen(seen[..]);
    while i < total && sector != END_OF_CHAIN && sector != FREE_SECTOR
      invariant i <= total
      invariant goal == Appended(all, ListedByDifat(s, major, sector, total - i, Seen(seen[..])))
    {
      if !WholeSector(major, sector, |s|) {
        DifatRejects(s, major, sector, total - i, Seen(seen[..]), all);
        return None;
      }
      SeenMore(seen[..], sector);
      if seen[sector] {
        DifatRejects(s, major, sector, total - i, Seen(seen[..]), all);
        return None;
      }
      DifatMore(s, major, sector, total - i, Seen(seen[..]), all);
      seen[sector] := true;
      var at := SectorStart(major, sector);
      all := AppendListed(s, at, SectorSize(major) / 4 - 1, all);
      sector := U32(s, at + SectorSize(major) - 4);
      i := i + 1;
    }
    DifatEnds(s, major, sector, total - i, Seen(seen[..]), all);
    r := Some(all);
  }

  lemma {:induction false} NothingSeen(seen: seq<bool>)
    requires forall k :: 0 <= k < |seen| ==> !seen[k]
    ensures Seen(seen) == {}
  {
  }

  lemma {:induction false} WordsSplit(s: Buffer, at: nat, per: nat)
    requires at + 4 * (per + 1) <= |s|
    ensures Words(s, at, per + 1)[..per] == Words(s, at, per) && Words(s, at, per + 1)[per] == U32(s, at + 4 * per)
  {
  }

  lemma {:induction false} DifatRejects(s: Buffer, major: nat, sector: nat, left: nat, seen: set<nat>, all: seq<nat>)
    requires left > 0 && sector != END_OF_CHAIN && sector != FREE_SECTOR && (!WholeSector(major, sector, |s|) || sector in seen)
    ensures Appended(all, ListedByDifat(s, major, sector, left, seen)) == None
  {
  }

  lemma {:induction false} DifatEnds(s: Buffer, major: nat, sector: nat, left: nat, seen: set<nat>, all: seq<nat>)
    requires left == 0 || sector == END_OF_CHAIN || sector == FREE_SECTOR
    ensures Appended(all, ListedByDifat(s, major, sector, left, seen)) == Some(all)
  {
    assert all + [] == all;
  }

  /** Keeps the listed sectors, each checked to lie in the file and to be listed for the first time. */
  method KeepOnce(listed: seq<nat>, major: nat, size: nat) returns (r: Option<seq<nat>>)
    ensures r == if ListedOnce(listed, major, size) then Some(listed) else None
  {
    var kept: seq<nat> := [];
    var used := new bool[SectorCount(major, size)](_ => false);
    for i := 0 to |listed|
      invariant kept == listed[..i] && ListedOnce(kept, major, size)
      invariant forall x :: 0 <= x < used.Length ==> (used[x] <==> x in kept)
    {
      var sector := listed[i];
      if !WholeSector(major, sector, size) {
        return None;
      }
      if used[sector] {
        var j :| 0 <= j < |kept| && kept[j] == sector;
        assert listed[j] == listed[i];
        return None;
      }
      used[sector] := true;
      kept := kept + [sector];
    }
    assert listed[..|listed|] == listed;
    r := Some(kept);
  }

  /** The list of allocation index sectors, from the header and from the chain of extended index sectors. */
  method ReadFatSectors(s: Buffer, h: Header) returns (r: Option<seq<nat>>)
    requires |s| >= 512
    ensures r == BuildFat(s, h)
  {
    hide ListedByDifat, Listed, Words, ListedOnce;
    var listed := AppendListed(s, 76, HEADER_DIFAT_ENTRIES, []);
    assert [] + Listed(Words(s, 76, HEADER_DIFAT_ENTRIES)) == Listed(Words(s, 76, HEADER_DIFAT_ENTRIES));
    assert listed + [] == listed;
    if h.difatSectors > 0 && h.firstDifat != END_OF_CHAIN {
      var all := WalkDifat(s, h.major, h.firstDifat, h.difatSectors, listed);
      if all.None? { return None; }
      listed := all.value;
    }
    r := KeepOnce(listed, h.major, |s|);
  }

  /** Reads the fields of every sector of the mini index into one table. */
  method ReadMiniFat(p: Package) returns (r: Option<seq<nat>>)
    requires p.Valid()
    ensures r == BuildMiniFat(p)
  {
    hide Solo, p.Fat, Words;
    if p.header.firstMiniFat == END_OF_CHAIN || p.header.miniFatSectors == 0 {
      return Some([]);
    }
    var followed := FollowChain(p, p.header.firstMiniFat);
    if followed.None? { return None; }
    var chain, table := followed.value, [];
    for k := 0 to |chain|
      invariant AllWhole(chain[..k], p.header.major, |p.source|)
      invariant table == Join(SectorWords(p, chain[..k]))
    {
      if !WholeSector(p.header.major, chain[k], |p.source|) { return None; }
      ghost var before := table;
      var at := p.Start(chain[k]);
      for i := 0 to p.Unit() / 4
        invariant table == before + Words(p.source, at, i)
      {
        table := table + [U32(p.source, at + 4 * i)];
        WordsSplit(p.source, at, i);
      }
      SectorWordsNext(p, chain, k);
    }
    assert chain[..|chain|] == chain;
    r := Some(table);
  }

  lemma {:induction false} SectorWordsNext(p: Package, chain: seq<nat>, k: nat)
    requires k < |chain| && AllWhole(chain[..k + 1], p.header.major, |p.source|)
    ensures AllWhole(chain[..k], p.header.major, |p.source|)
    ensures Join(SectorWords(p, chain[..k + 1])) == Join(SectorWords(p, chain[..k])) + Words(p.source, p.Start(chain[k]), p.Unit() / 4)
  {
    hide Words;
    assert forall i :: 0 <= i < k ==> chain[..k][i] == chain[..k + 1][i];
    var w := SectorWords(p, chain[..k + 1]);
    assert w[..k] == SectorWords(p, chain[..k]);
    assert chain[..k + 1][k] == chain[k];
  }

  // ── Directory ──────────────────────────────────────────────

  /** One entry, field by field from its place in the file. */
  method ReadEntry(s: Buffer, base: nat, major: nat) returns (e: DirEntry)
    requires base + DIR_ENTRY_SIZE <= |s|
    ensures e == DecodeEntry(s[base..base + DIR_ENTRY_SIZE], major)
  {
    hide U16, U32, U64;
    ghost var entry := s[base..base + DIR_ENTRY_SIZE];
    var name: Name, classId: Buffer := [], [];
    var nameSize := U16(s, base + 64);
    FieldsOfSlice(s, base);
    if 2 <= nameSize <= 64 {
      for c := 0 to nameSize / 2 - 1
        invariant name == NameUnits(entry, 0, c)
      {
        name := name + [U16(s, base + 2 * c)];
        UnitOfSlice(s, base, c);
      }
    }
    for b := 0 to 16
      invariant classId == s[base + 80..base + 80 + b]
    {
      classId := classId + [s[base + 80 + b]];
    }
    SliceSlice(s, base, base + DIR_ENTRY_SIZE, 80, 96);
    var size := if major == 4 then U64(s, base + 120) else U32(s, base + 120);
    e := DirEntry(Meta(name, classId, U32(s, base + 96), U64(s, base + 100), U64(s, base + 108)),
                  s[base + 66], U32(s, base + 68), U32(s, base + 72), U32(s, base + 76), U32(s, base + 116), size);
  }

  lemma {:induction false} UnitOfSlice(s: Buffer, base: nat, c: nat)
    requires base + DIR_ENTRY_SIZE <= |s| && 2 * c + 2 <= 64
    ensures var e := s[base..base + DIR_ENTRY_SIZE];
      NameUnits(e, 0, c + 1) == NameUnits(e, 0, c) + [U16(s, base + 2 * c)]
  {
  }

  lemma {:induction false} FieldsOfSlice(s: Buffer, base: nat)
    requires base + DIR_ENTRY_SIZE <= |s|
    ensures var e := s[base..base + DIR_ENTRY_SIZE];
      && U16(e, 64) == U16(s, base + 64) && e[66] == s[base + 66]
      && (forall k :: 0 <= k <= 124 ==> U32(e, k) == U32(s, base + k))
      && (forall k :: 0 <= k <= 120 ==> U64(e, k) == U64(s, base + k))
  {
  }

  method ReadDirectory(p: Package) returns (r: Option<seq<DirEntry>>)
    requires p.Valid()
    ensures r == ParseDirectory(p)
  {
    hide Solo, p.Fat, Blocks, DecodeEntry, DecodeAll;
    var followed := FollowChain(p, p.header.firstDir);
    if followed.None? { return None; }
    var chain, dir := followed.value, [];
    ghost var blocks: seq<Buffer> := [];
    DecodeNone(p.header.major);
    for k := 0 to |chain|
      invariant AllWhole(chain[..k], p.header.major, |p.source|)
      invariant AllEntries(blocks) && blocks == Join(ChainBlocks(p, chain[..k]))
      invariant dir == DecodeAll(blocks, p.header.major)
    {
      if !WholeSector(p.header.major, chain[k], |p.source|) { return None; }
      var at := p.Start(chain[k]);
      ghost var before := blocks;
      for i := 0 to p.Unit() / DIR_ENTRY_SIZE
        invariant AllEntries(blocks) && blocks == before + Blocks(p.source, at, i)
        invariant dir == DecodeAll(blocks, p.header.major)
      {
        var base := at + DIR_ENTRY_SIZE * i;
        var e := ReadEntry(p.source, base, p.header.major);
        dir := dir + [e];
        BlocksNext(p.source, at, i);
        DecodeNext(blocks, p.source[base..base + DIR_ENTRY_SIZE], p.header.major);
        blocks := blocks + [p.source[base..base + DIR_ENTRY_SIZE]];
      }
      ChainBlocksNext(p, chain, k);
    }
    assert chain[..|chain|] == chain;
    r := Some(dir);
  }

  lemma {:induction false} DecodeNone(major: nat)
    ensures DecodeAll([], major) == []
  {
  }

  lemma {:induction false} BlocksNext(s: Buffer, at: nat, i: nat)
    requires at + DIR_ENTRY_SIZE * (i + 1) <= |s|
    ensures Blocks(s, at, i + 1) == Blocks(s, at, i) + [s[at + DIR_ENTRY_SIZE * i..at + DIR_ENTRY_SIZE * i + DIR_ENTRY_SIZE]]
  {
  }

  lemma {:induction false} DecodeNext(blocks: seq<Buffer>, b: Buffer, major: nat)
    requires AllEntries(blocks) && |b| == DIR_ENTRY_SIZE
    ensures AllEntries(blocks + [b])
    ensures DecodeAll(blocks + [b], major) == DecodeAll(blocks, major) + [DecodeEntry(b, major)]
  {
    assert (blocks + [b])[..|blocks|] == blocks;
  }

  lemma {:induction false} ChainBlocksNext(p: Package, chain: seq<nat>, k: nat)
    requires k < |chain| && AllWhole(chain[..k + 1], p.header.major, |p.source|)
    ensures AllWhole(chain[..k], p.header.major, |p.source|)
    ensures Join(ChainBlocks(p, chain[..k + 1]))
         == Join(ChainBlocks(p, chain[..k])) + Blocks(p.source, p.Start(chain[k]), p.Unit() / DIR_ENTRY_SIZE)
  {
    hide Blocks;
    assert forall i :: 0 <= i < k ==> chain[..k][i] == chain[..k + 1][i];
    var w := ChainBlocks(p, chain[..k + 1]);
    assert w[..k] == ChainBlocks(p, chain[..k]);
    assert chain[..k + 1][k] == chain[k];
  }

  // ── The whole parse ────────────────────────────────────────

  /** The root entry is reached from the start; everything else at most once. */
  method ReadRoot(p: Package, dir: seq<DirEntry>) returns (r: Option<Package>)
    ensures r == BuildRoot(p, dir)
  {
    hide ReadStorage, Free;
    if dir == [] || dir[0].kind != KIND_ROOT { return None; }
    var visited := new bool[|dir|](_ => false);
    visited[0] := true;
    OnlyRootVisited(visited[..]);
    var kids := ReadChildren(dir, dir[0].child, 1, visited);
    if kids.None? { return None; }
    r := Some(p.(miniStart := dir[0].start, miniSize := dir[0].size,
                 root := Node(dir[0].meta, true, END_OF_CHAIN, 0, kids.value.0, kids.value.1, NO_STREAM, NO_STREAM)));
  }

  lemma {:induction false} OnlyRootVisited(visited: seq<bool>)
    requires visited != [] && visited[0] && forall i :: 1 <= i < |visited| ==> !visited[i]
    ensures Free(visited) == Positions(1, |visited| - 1)
  {
  }

  method ParseFile(s: Buffer) returns (r: Option<Package>)
    ensures r == Parse(s)
  {
    hide BuildMiniFat, ParseDirectory, BuildRoot, ParseHeader;
    var h := ParseHeader(s);
    if h.None? { return None; }
    var fat := ReadFatSectors(s, h.value);
    if fat.None? { return None; }
    var p := Tables(s, h.value, fat.value);
    hide BuildFat;
    var mini := ReadMiniFat(p);
    if mini.None? { return None; }
    var dir := ReadDirectory(p);
    if dir.None? { return None; }
    r := ReadRoot(p.(miniFat := mini.value), dir.value);
  }
}
