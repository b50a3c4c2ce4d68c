/** Compound files: the parsed package and its geometry ([MS-CFB] sections 2.2 to 2.6). */
module CfbModel {
  import opened Bytes

  const END_OF_CHAIN := 0xFFFF_FFFE
  const FREE_SECTOR := 0xFFFF_FFFF
  const NO_STREAM := 0xFFFF_FFFF
  const MAX_STORAGE_DEPTH := 32
  const MINI_STREAM_CUTOFF := 4096
  const MINI_SECTOR_SIZE := 64
  /** Sector numbers stay below the reserved ones. */
  const MAX_SECTORS := 0xFFFF_FFFA

  type CodeUnit = u: int | 0 <= u < 0x1_0000
  type Name = seq<CodeUnit>

  /** What the container records about a storage or stream besides its contents. */
  datatype Meta = Meta(name: Name, classId: Buffer, stateBits: nat, created: nat, modified: nat)

  /** A storage or stream as the reader delivers it: where its bytes start, or its
      children in the in-order sequence of their search tree, with the tree as positions
      in that sequence. */
  datatype Node = Node(meta: Meta, isStorage: bool, start: nat, size: nat,
                       children: seq<Node>, treeRoot: nat, left: nat, right: nat)

  /** An entry of the writer's directory before streams are placed. */
  datatype Entry = Entry(meta: Meta, isStorage: bool, data: Buffer, left: nat, right: nat, child: nat)

  datatype Header = Header(major: nat, minor: nat, cutoff: nat, firstDir: nat,
                           firstMiniFat: nat, miniFatSectors: nat, firstDifat: nat, difatSectors: nat)

  /** 512 bytes in version 3, 4096 in version 4; the header is as long as a sector. */
  function SectorSize(major: nat): (n: nat)
    ensures n == 512 || n == 4096
  {
    if major == 4 then 4096 else 512
  }

  function SectorStart(major: nat, sector: nat): nat {
    SectorSize(major) + sector * SectorSize(major)
  }

  /** How many sectors a file of this size has, not counting the header and rounding up. */
  function SectorCount(major: nat, size: nat): nat {
    if size <= SectorSize(major) then 0
    else (size - SectorSize(major) + SectorSize(major) - 1) / SectorSize(major)
  }

  datatype Package = Package(source: Buffer, header: Header, fatSectors: seq<nat>, miniFat: seq<nat>,
                             miniStart: nat, miniSize: nat, root: Node)
  {
    function Unit(): (n: nat)
      ensures n == 512 || n == 4096
    {
      SectorSize(header.major)
    }

    function Count(): nat {
      SectorCount(header.major, |source|)
    }

    function Start(sector: nat): nat {
      SectorStart(header.major, sector)
    }

    /** Every FAT sector lies whole in the file; the reader checks it when it lists them. */
    predicate Valid() {
      forall i :: 0 <= i < |fatSectors| ==> RangeFits(Start(fatSectors[i]), Unit(), |source|)
    }

    /** The i-th entry of the allocation index, found through the list of its sectors. */
    function FatEntry(i: nat): nat
      requires Valid() && i < |fatSectors| * (Unit() / 4)
    {
      FatIndex(i, Unit() / 4, |fatSectors|);
      U32(source, Start(fatSectors[i / (Unit() / 4)]) + i % (Unit() / 4) * 4)
    }

    /** The allocation index as one sequence. */
    function Fat(): (t: seq<nat>)
      requires Valid()
      ensures |t| == |fatSectors| * (Unit() / 4)
    {
      seq(|fatSectors| * (Unit() / 4), i requires 0 <= i < |fatSectors| * (Unit() / 4) => FatEntry(i))
    }
  }

  lemma {:induction false} FatIndex(i: nat, per: nat, sectors: nat)
    requires i < sectors * per
    ensures per > 0 && i / per < sectors
  {
  }
}
