/** Parsing a compound file: header, allocation index, mini index, directory, tree. */
module CfbReader {
  import opened Bytes
  import opened CfbModel
  import opened CfbChains
  import opened CfbTree
  import opened CfbDirectory
  import opened CfbLayout

  const MAGIC: Buffer := [0xD0, 0xCF, 0x11, 0xE0, 0xA1, 0xB1, 0x1A, 0xE1]
  const BYTE_ORDER := 0xFFFE

  /** The header's fields, or a rejection. */
  function ParseHeader(s: Buffer): (r: Option<Header>)
    ensures r.Some? ==> |s| >= SectorSize(r.value.major) && (r.value.major == 3 || r.value.major == 4) && r.value.cutoff == MINI_STREAM_CUTOFF
  {
    if |s| < 512 || s[..8] != MAGIC || U16(s, 28) != BYTE_ORDER then None
    else
      var major, power := U16(s, 26), U16(s, 30);
      if (power != 9 && power != 12) || (major != 3 && major != 4) || (major == 3) != (power == 9) then None
      else if U16(s, 32) != 6 || |s| < SectorSize(major) || U32(s, 56) != MINI_STREAM_CUTOFF then None
      else Some(Header(major, U16(s, 24), U32(s, 56), U32(s, 48), U32(s, 60), U32(s, 64), U32(s, 68), U32(s, 72)))
  }

  /** n consecutive 32-bit fields. */
  function Words(s: Buffer, at: nat, n: nat): (w: seq<nat>)
    requires at + 4 * n <= |s|
    ensures |w| == n && forall i :: 0 <= i < n ==> w[i] == U32(s, at + 4 * i)
  {
    seq(n, i requires 0 <= i < n => U32(s, at + 4 * i))
  }

  /** The entries before the first free or end mark. */
  function Listed(words: seq<nat>): seq<nat> {
    if words == [] || words[0] == FREE_SECTOR || words[0] == END_OF_CHAIN then []
    else [words[0]] + Listed(words[1..])
  }

  /** The sector lies whole in the file. */
  predicate WholeSector(major: nat, sector: nat, size: nat) {
    sector < SectorCount(major, size) && RangeFits(SectorStart(major, sector), SectorSize(major), size)
  }

  /** The allocation index sectors listed by the chain of extended index sectors. */
  function ListedByDifat(s: Buffer, major: nat, sector: nat, left: nat, seen: set<nat>): Option<seq<nat>>
    decreases left
  {
    if left == 0 || sector == END_OF_CHAIN || sector == FREE_SECTOR then Some([])
    else if !WholeSector(major, sector, |s|) || sector in seen then None
    else
      var words := Words(s, SectorStart(major, sector), SectorSize(major) / 4);
      var per := |words| - 1;
      var rest :- ListedByDifat(s, major, words[per], left - 1, seen + {sector});
      Some(Listed(words[..per]) + rest)
  }

  /** Each sector whole in the file, none listed twice. */
  predicate ListedOnce(sectors: seq<nat>, major: nat, size: nat) {
    && (forall i :: 0 <= i < |sectors| ==> WholeSector(major, sectors[i], size))
    && (forall i, j :: 0 <= i < j < |sectors| ==> sectors[i] != sectors[j])
  }

  function BuildFat(s: Buffer, h: Header): Option<seq<nat>>
    requires |s| >= 512
  {
    var inHeader := Listed(Words(s, 76, HEADER_DIFAT_ENTRIES));
    var more :- if h.difatSectors > 0 && h.firstDifat != END_OF_CHAIN
                then ListedByDifat(s, h.major, h.firstDifat, h.difatSectors, {}) else Some([]);
    if ListedOnce(inHeader + more, h.major, |s|) then Some(inHeader + more) else None
  }

  /** The package as far as the tables go. */
  function Tables(s: Buffer, h: Header, fat: seq<nat>): (p: Package)
    requires ListedOnce(fat, h.major, |s|)
    ensures p.Valid() && p.Count() == SectorCount(h.major, |s|) && p.Unit() == SectorSize(h.major)
  {
    Package(s, h, fat, [], END_OF_CHAIN, 0, Node(Meta([], [], 0, 0, 0), true, END_OF_CHAIN, 0, [], NO_STREAM, NO_STREAM, NO_STREAM))
  }

  predicate AllWhole(sectors: seq<nat>, major: nat, size: nat) {
    forall i :: 0 <= i < |sectors| ==> WholeSector(major, sectors[i], size)
  }

  ghost function BuildMiniFat(p: Package): Option<seq<nat>>
    requires p.Valid()
  {
    var h := p.header;
    if h.firstMiniFat == END_OF_CHAIN || h.miniFatSectors == 0 then Some([])
    else
      var chain :- Solo(p.Fat(), p.Count(), h.firstMiniFat);
      if !AllWhole(chain, h.major, |p.source|) then None
      else Some(Join(SectorWords(p, chain)))
  }

  /** The 32-bit fields of each sector of a chain. */
  function SectorWords(p: Package, chain: seq<nat>): (w: seq<seq<nat>>)
    requires AllWhole(chain, p.header.major, |p.source|)
    ensures |w| == |chain| && forall i :: 0 <= i < |chain| ==> w[i] == Words(p.source, p.Start(chain[i]), p.Unit() / 4)
  {
    seq(|chain|, i requires 0 <= i < |chain| => Words(p.source, p.Start(chain[i]), p.Unit() / 4))
  }

  function NameUnits(s: Buffer, at: nat, n: nat): (name: Name)
    requires at + 2 * n <= |s|
    ensures |name| == n
  {
    seq(n, i requires 0 <= i < n => U16(s, at + 2 * i))
  }

  /** The entry in 128 bytes. In version 3 the upper half of the size is ignored. */
  function DecodeEntry(s: Buffer, major: nat): DirEntry
    requires |s| == DIR_ENTRY_SIZE
  {
    var nameSize := U16(s, 64);
    var name := if 2 <= nameSize <= 64 then NameUnits(s, 0, nameSize / 2 - 1) else [];
    DirEntry(Meta(name, s[80..96], U32(s, 96), U64(s, 100), U64(s, 108)),
             s[66], U32(s, 68), U32(s, 72), U32(s, 76), U32(s, 116),
             if major == 4 then U64(s, 120) else U32(s, 120))
  }

  predicate AllEntries(blocks: seq<Buffer>) {
    forall i :: 0 <= i < |blocks| ==> |blocks[i]| == DIR_ENTRY_SIZE
  }

  /** n consecutive pieces of the size of an entry. */
  function Blocks(s: Buffer, at: nat, n: nat): (b: seq<Buffer>)
    requires at + DIR_ENTRY_SIZE * n <= |s|
    ensures |b| == n && AllEntries(b)
    ensures forall i :: 0 <= i < n ==> b[i] == s[at + DIR_ENTRY_SIZE * i..at + DIR_ENTRY_SIZE * i + DIR_ENTRY_SIZE]
  {
    seq(n, i requires 0 <= i < n => s[at + DIR_ENTRY_SIZE * i..at + DIR_ENTRY_SIZE * i + DIR_ENTRY_SIZE])
  }

  function DecodeAll(blocks: seq<Buffer>, major: nat): (d: seq<DirEntry>)
    requires AllEntries(blocks)
    ensures |d| == |blocks|
  {
    if blocks == [] then []
    else DecodeAll(blocks[..|blocks| - 1], major) + [DecodeEntry(blocks[|blocks| - 1], major)]
  }

  lemma {:induction false} DecodeAllAt(blocks: seq<Buffer>, major: nat, i: nat)
    requires AllEntries(blocks) && i < |blocks|
    ensures DecodeAll(blocks, major)[i] == DecodeEntry(blocks[i], major)
    decreases |blocks|
  {
    var n := |blocks| - 1;
    if i < n {
      DecodeAllAt(blocks[..n], major, i);
    }
  }

  /** The pieces of each sector of a chain. */
  function ChainBlocks(p: Package, chain: seq<nat>): (d: seq<seq<Buffer>>)
    requires AllWhole(chain, p.header.major, |p.source|)
    ensures |d| == |chain|
    ensures forall i :: 0 <= i < |chain| ==> d[i] == Blocks(p.source, p.Start(chain[i]), p.Unit() / DIR_ENTRY_SIZE)
  {
    seq(|chain|, i requires 0 <= i < |chain| => Blocks(p.source, p.Start(chain[i]), p.Unit() / DIR_ENTRY_SIZE))
  }

  lemma {:induction false} JoinEntries(parts: seq<seq<Buffer>>)
    requires forall i :: 0 <= i < |parts| ==> AllEntries(parts[i])
    ensures AllEntries(Join(parts))
  {
    if parts != [] { JoinEntries(parts[..|parts| - 1]); }
  }

  ghost function ParseDirectory(p: Package): Option<seq<DirEntry>>
    requires p.Valid()
  {
    var chain :- Solo(p.Fat(), p.Count(), p.header.firstDir);
    if !AllWhole(chain, p.header.major, |p.source|) then None
    else
      JoinEntries(ChainBlocks(p, chain));
      Some(DecodeAll(Join(ChainBlocks(p, chain)), p.header.major))
  }

  /** The root entry and everything its search tree reaches. */
  ghost function BuildRoot(p: Package, dir: seq<DirEntry>): Option<Package> {
    if dir == [] || dir[0].kind != KIND_ROOT then None
    else
      var s :- ReadStorage(dir, dir[0].child, 1, Positions(1, |dir| - 1));
      Some(p.(miniStart := dir[0].start, miniSize := dir[0].size,
              root := Node(dir[0].meta, true, END_OF_CHAIN, 0, s.nodes, s.treeRoot, NO_STREAM, NO_STREAM)))
  }

  ghost function Parse(s: Buffer): Option<Package> {
    var h :- ParseHeader(s);
    var fat :- BuildFat(s, h);
    var p := Tables(s, h, fat);
    var mini :- BuildMiniFat(p);
    var dir :- ParseDirectory(p);
    BuildRoot(p.(miniFat := mini), dir)
  }

  /** A parsed package, whatever file it comes from: its index sectors lie in the file, and every link of its search
      trees is a position, so neither resolving nor searching leaves a table. */
  lemma {:induction false} ParsedIsValid(s: Buffer)
    requires Parse(s).Some?
    ensures Parse(s).value.Valid() && Parse(s).value.source == s && TreesInside(Parse(s).value.root)
  {
    var h := ParseHeader(s).value;
    var p := Tables(s, h, BuildFat(s, h).value);
    RootKeepsTables(p.(miniFat := BuildMiniFat(p).value), ParseDirectory(p).value);
    RootInside(p.(miniFat := BuildMiniFat(p).value), ParseDirectory(p).value);
  }

  lemma {:induction false} RootInside(p: Package, dir: seq<DirEntry>)
    requires BuildRoot(p, dir).Some?
    ensures TreesInside(BuildRoot(p, dir).value.root)
  {
    ReadStorageInside(dir, dir[0].child, 1, Positions(1, |dir| - 1));
  }

  lemma {:induction false} RootKeepsTables(p: Package, dir: seq<DirEntry>)
    requires p.Valid() && BuildRoot(p, dir).Some?
    ensures BuildRoot(p, dir).value.Valid() && BuildRoot(p, dir).value.source == p.source
  {
  }
}
