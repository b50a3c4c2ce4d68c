/** The container of a code signature: a big-endian index of blobs. */
module MachOSuperBlob {
  import opened Bytes

  const EMBEDDED_SIGNATURE: nat := 0xFADE_0CC0
  const CODE_DIRECTORY: nat := 0xFADE_0C02
  const REQUIREMENTS: nat := 0xFADE_0C01
  const BLOB_WRAPPER: nat := 0xFADE_0B01
  const SLOT_CODE_DIRECTORY: nat := 0
  const SLOT_REQUIREMENTS: nat := 2
  const SLOT_CMS: nat := 0x1_0000

  /** Header, three index entries, requirements and the CMS wrapper's header. */
  const FIXED_SIZE: nat := 56

  function EmptyRequirements(): (r: Buffer)
    ensures |r| == 12
  {
    BE32(REQUIREMENTS) + BE32(12) + BE32(0)
  }

  function Wrapper(cms: Buffer): (w: Buffer)
    requires 8 + |cms| < LIMIT32
    ensures |w| == 8 + |cms|
  {
    BE32(BLOB_WRAPPER) + BE32(8 + |cms|) + cms
  }

  function IndexEntry(slot: nat, offset: nat): (e: Buffer)
    requires slot < LIMIT32 && offset < LIMIT32
    ensures |e| == 8
  {
    BE32(slot) + BE32(offset)
  }

  function TotalSize(cd: Buffer, cms: Buffer): nat {
    FIXED_SIZE + |cd| + |cms|
  }

  function Index(cd: Buffer): (x: Buffer)
    requires 48 + |cd| < LIMIT32
    ensures |x| == 24
  {
    IndexEntry(SLOT_CODE_DIRECTORY, 36) + IndexEntry(SLOT_REQUIREMENTS, 36 + |cd|) + IndexEntry(SLOT_CMS, 48 + |cd|)
  }

  function BuildSuperBlob(cd: Buffer, cms: Buffer): (b: Buffer)
    requires TotalSize(cd, cms) < LIMIT32
    ensures |b| == TotalSize(cd, cms)
  {
    BE32(EMBEDDED_SIGNATURE) + BE32(TotalSize(cd, cms)) + BE32(3) + Index(cd) + cd + EmptyRequirements() + Wrapper(cms)
  }

  // ── Looking a slot up ──────────────────────────────────────

  /** An index entry points past the index and leaves room for a blob's header. */
  predicate EntryOk(b: Buffer, i: nat, indexEnd: nat, length: nat)
    requires 12 + i * 8 + 8 <= |b|
  {
    var offset := B32(b, 12 + i * 8 + 4);
    offset >= indexEnd && RangeFits(offset, 8, length)
  }

  predicate EntriesOk(b: Buffer, n: nat, indexEnd: nat, length: nat)
    requires 12 + n * 8 <= |b|
  {
    forall i :: 0 <= i < n ==> EntryOk(b, i, indexEnd, length)
  }

  function SlotAt(b: Buffer, i: nat): nat
    requires 12 + i * 8 + 8 <= |b|
  {
    B32(b, 12 + i * 8)
  }

  function OffsetAt(b: Buffer, i: nat): nat
    requires 12 + i * 8 + 8 <= |b|
  {
    B32(b, 12 + i * 8 + 4)
  }

  /** The offset of the first of n entries with this slot. */
  function FirstSlot(b: Buffer, slot: nat, n: nat): Option<nat>
    requires 12 + n * 8 <= |b|
  {
    if n == 0 then None
    else
      var before := FirstSlot(b, slot, n - 1);
      if before.None? && SlotAt(b, n - 1) == slot then Some(OffsetAt(b, n - 1)) else before
  }

  datatype Found = Malformed | Absent | Blob(at: nat, length: nat)

  /** The checks of the header: the length and the number of entries it allows. */
  function ReadHeader(b: Buffer): (r: Option<(nat, nat)>)
    ensures r.Some? ==> 12 + r.value.1 * 8 <= r.value.0 <= |b|
  {
    if |b| < 12 || B32(b, 0) != EMBEDDED_SIGNATURE || B32(b, 4) < 12 || B32(b, 4) > |b| || 12 + B32(b, 8) * 8 > B32(b, 4) then None
    else Some((B32(b, 4), B32(b, 8)))
  }

  function BlobAt(b: Buffer, at: nat, magic: nat, length: nat): Found
    requires at + 8 <= length <= |b|
  {
    if B32(b, at) != magic || B32(b, at + 4) < 8 || !RangeFits(at, B32(b, at + 4), length) then Malformed
    else Blob(at, B32(b, at + 4))
  }

  lemma {:induction false} FirstSlotOk(b: Buffer, slot: nat, n: nat, indexEnd: nat, length: nat)
    requires 12 + n * 8 <= |b| && EntriesOk(b, n, indexEnd, length)
    ensures FirstSlot(b, slot, n).Some? ==> indexEnd <= FirstSlot(b, slot, n).value && FirstSlot(b, slot, n).value + 8 <= length
  {
    if n > 0 {
      FirstSlotOk(b, slot, n - 1, indexEnd, length);
      assert EntryOk(b, n - 1, indexEnd, length);
    }
  }

  function FindSlot(b: Buffer, slot: nat, magic: nat): Found {
    match ReadHeader(b)
    case None => Malformed
    case Some((length, count)) =>
      if !EntriesOk(b, count, 12 + count * 8, length) then Malformed
      else
        FirstSlotOk(b, slot, count, 12 + count * 8, length);
        match FirstSlot(b, slot, count)
        case None => Absent
        case Some(at) => BlobAt(b, at, magic, length)
  }

  method FindSuperBlobSlot(b: Buffer, slot: nat, magic: nat) returns (r: Found)
    ensures r == FindSlot(b, slot, magic)
  {
    var header := ReadHeader(b);
    if header.None? { return Malformed; }
    var (length, count) := header.value;
    var indexEnd := 12 + count * 8;
    var wanted: Option<nat> := None;
    var i := 0;
    while i < count
      invariant i <= count && EntriesOk(b, i, indexEnd, length) && wanted == FirstSlot(b, slot, i)
    {
      if OffsetAt(b, i) < indexEnd || !RangeFits(OffsetAt(b, i), 8, length) {
        assert !EntryOk(b, i, indexEnd, length);
        return Malformed;
      }
      if SlotAt(b, i) == slot && wanted.None? { wanted := Some(OffsetAt(b, i)); }
      i := i + 1;
    }
    FirstSlotOk(b, slot, count, indexEnd, length);
    if wanted.None? { return Absent; }
    r := BlobAt(b, wanted.value, magic, length);
  }

  /** None is a rejection; Some(None) a signature without the blob. */
  function ExtractCms(b: Buffer): Option<Option<Buffer>> {
    match FindSlot(b, SLOT_CMS, BLOB_WRAPPER)
    case Malformed => None
    case Absent => Some(None)
    case Blob(at, length) =>
      FoundInside(b, SLOT_CMS, BLOB_WRAPPER);
      Some(Some(b[at + 8..at + length]))
  }

  function ExtractCodeDirectory(b: Buffer): Option<Option<Buffer>> {
    match FindSlot(b, SLOT_CODE_DIRECTORY, CODE_DIRECTORY)
    case Malformed => None
    case Absent => Some(None)
    case Blob(at, length) =>
      FoundInside(b, SLOT_CODE_DIRECTORY, CODE_DIRECTORY);
      Some(Some(b[at..at + length]))
  }

  /** A blob that is found lies in the signature. */
  lemma {:induction false} FoundInside(b: Buffer, slot: nat, magic: nat)
    ensures FindSlot(b, slot, magic).Blob? ==>
      FindSlot(b, slot, magic).length >= 8 && FindSlot(b, slot, magic).at + FindSlot(b, slot, magic).length <= |b|
  {
    hide B32;
    match ReadHeader(b)
    case None =>
    case Some((length, count)) =>
      if EntriesOk(b, count, 12 + count * 8, length) { FirstSlotOk(b, slot, count, 12 + count * 8, length); }
  }

  // ── Round trip ─────────────────────────────────────────────

  lemma {:induction false} BigWord(b: Buffer, at: nat, v: nat)
    requires v < LIMIT32 && HoldsAt(b, at, BE32(v))
    ensures B32(b, at) == v
  {
    hide B32, BE32;
    ReadBig32(b, at, v);
  }

  lemma {:induction false} EntryBack(b: Buffer, i: nat, slot: nat, offset: nat)
    requires slot < LIMIT32 && offset < LIMIT32 && HoldsAt(b, 12 + i * 8, IndexEntry(slot, offset))
    ensures SlotAt(b, i) == slot && OffsetAt(b, i) == offset
  {
    hide B32, BE32;
    var at := 12 + i * 8;
    var e := IndexEntry(slot, offset);
    assert HoldsAt(e, 0, BE32(slot)) && HoldsAt(e, 4, BE32(offset));
    HoldsWithin(b, at, e, 0, BE32(slot));
    HoldsWithin(b, at, e, 4, BE32(offset));
    BigWord(b, at, slot);
    BigWord(b, at + 4, offset);
  }

  /** Where the parts of a signature are. */
  ghost predicate PartsOf(b: Buffer, cd: Buffer, cms: Buffer)
    requires TotalSize(cd, cms) < LIMIT32
  {
    && |b| >= TotalSize(cd, cms)
    && HoldsAt(b, 0, BE32(EMBEDDED_SIGNATURE)) && HoldsAt(b, 4, BE32(TotalSize(cd, cms))) && HoldsAt(b, 8, BE32(3))
    && HoldsAt(b, 12, IndexEntry(SLOT_CODE_DIRECTORY, 36)) && HoldsAt(b, 20, IndexEntry(SLOT_REQUIREMENTS, 36 + |cd|))
    && HoldsAt(b, 28, IndexEntry(SLOT_CMS, 48 + |cd|))
    && HoldsAt(b, 36, cd) && HoldsAt(b, 48 + |cd|, Wrapper(cms))
  }

  lemma {:induction false} BlobParts(cd: Buffer, cms: Buffer)
    requires TotalSize(cd, cms) < LIMIT32
    ensures PartsOf(BuildSuperBlob(cd, cms), cd, cms)
  {
    hide BE32, IndexEntry, Wrapper, EmptyRequirements;
    var b := BuildSuperBlob(cd, cms);
    var x := Index(cd);
    assert HoldsAt(b, 12, x);
    assert HoldsAt(x, 0, IndexEntry(SLOT_CODE_DIRECTORY, 36)) && HoldsAt(x, 8, IndexEntry(SLOT_REQUIREMENTS, 36 + |cd|));
    assert HoldsAt(x, 16, IndexEntry(SLOT_CMS, 48 + |cd|));
    HoldsWithin(b, 12, x, 0, IndexEntry(SLOT_CODE_DIRECTORY, 36));
    HoldsWithin(b, 12, x, 8, IndexEntry(SLOT_REQUIREMENTS, 36 + |cd|));
    HoldsWithin(b, 12, x, 16, IndexEntry(SLOT_CMS, 48 + |cd|));
  }

  /** The header and the index are read back. */
  lemma {:induction false} IndexBack(b: Buffer, cd: Buffer, cms: Buffer)
    requires TotalSize(cd, cms) < LIMIT32 && PartsOf(b, cd, cms) && |cd| >= 8
    ensures ReadHeader(b) == Some((TotalSize(cd, cms), 3)) && EntriesOk(b, 3, 36, TotalSize(cd, cms))
    ensures FirstSlot(b, SLOT_CODE_DIRECTORY, 3) == Some(36) && FirstSlot(b, SLOT_CMS, 3) == Some(48 + |cd|)
  {
    hide B32, BE32, IndexEntry, Wrapper;
    BigWord(b, 0, EMBEDDED_SIGNATURE);
    BigWord(b, 4, TotalSize(cd, cms));
    BigWord(b, 8, 3);
    EntryBack(b, 0, SLOT_CODE_DIRECTORY, 36);
    EntryBack(b, 1, SLOT_REQUIREMENTS, 36 + |cd|);
    EntryBack(b, 2, SLOT_CMS, 48 + |cd|);
    assert EntryOk(b, 0, 36, TotalSize(cd, cms)) && EntryOk(b, 1, 36, TotalSize(cd, cms)) && EntryOk(b, 2, 36, TotalSize(cd, cms));
    assert FirstSlot(b, SLOT_CODE_DIRECTORY, 1) == Some(36) && FirstSlot(b, SLOT_CODE_DIRECTORY, 2) == Some(36);
    assert FirstSlot(b, SLOT_CMS, 0) == FirstSlot(b, SLOT_CMS, 1) == FirstSlot(b, SLOT_CMS, 2) == None;
  }

  /** A code directory says what it is and how long. */
  predicate IsCodeDirectory(cd: Buffer) {
    |cd| >= 8 && B32(cd, 0) == CODE_DIRECTORY && B32(cd, 4) == |cd|
  }

  lemma {:induction false} BigInside(s: Buffer, at: nat, c: Buffer, k: nat)
    requires HoldsAt(s, at, c) && k + 4 <= |c|
    ensures B32(s, at + k) == B32(c, k)
  {
    assert s[at..at + |c|][k] == s[at + k] && s[at..at + |c|][k + 1] == s[at + k + 1];
    assert s[at..at + |c|][k + 2] == s[at + k + 2] && s[at..at + |c|][k + 3] == s[at + k + 3];
  }

  lemma {:induction false} WrapperBack(b: Buffer, at: nat, cms: Buffer)
    requires 8 + |cms| < LIMIT32 && HoldsAt(b, at, Wrapper(cms))
    ensures B32(b, at) == BLOB_WRAPPER && B32(b, at + 4) == 8 + |cms| && b[at + 8..at + 8 + |cms|] == cms
  {
    hide B32, BE32;
    var w := Wrapper(cms);
    assert HoldsAt(w, 0, BE32(BLOB_WRAPPER)) && HoldsAt(w, 4, BE32(8 + |cms|)) && HoldsAt(w, 8, cms);
    HoldsWithin(b, at, w, 0, BE32(BLOB_WRAPPER));
    HoldsWithin(b, at, w, 4, BE32(8 + |cms|));
    HoldsWithin(b, at, w, 8, cms);
    BigWord(b, at, BLOB_WRAPPER);
    BigWord(b, at + 4, 8 + |cms|);
  }

  /** Both blobs come back out of a signature that holds them, whatever follows it. */
  lemma {:induction false} BlobsBack(b: Buffer, cd: Buffer, cms: Buffer)
    requires TotalSize(cd, cms) < LIMIT32 && IsCodeDirectory(cd) && PartsOf(b, cd, cms)
    ensures ExtractCms(b) == Some(Some(cms))
    ensures ExtractCodeDirectory(b) == Some(Some(cd))
  {
    hide B32, BE32, IndexEntry, Wrapper;
    IndexBack(b, cd, cms);
    assert b[36..36 + |cd|] == cd;
    BigInside(b, 36, cd, 0);
    BigInside(b, 36, cd, 4);
    WrapperBack(b, 48 + |cd|, cms);
    assert FindSlot(b, SLOT_CODE_DIRECTORY, CODE_DIRECTORY) == Blob(36, |cd|);
    assert FindSlot(b, SLOT_CMS, BLOB_WRAPPER) == Blob(48 + |cd|, 8 + |cms|);
  }

  /** Extracting after building gives both blobs back. */
  lemma {:induction false} ExtractBuilt(cd: Buffer, cms: Buffer)
    requires TotalSize(cd, cms) < LIMIT32 && IsCodeDirectory(cd)
    ensures ExtractCms(BuildSuperBlob(cd, cms)) == Some(Some(cms))
    ensures ExtractCodeDirectory(BuildSuperBlob(cd, cms)) == Some(Some(cd))
  {
    BlobParts(cd, cms);
    BlobsBack(BuildSuperBlob(cd, cms), cd, cms);
  }
}
