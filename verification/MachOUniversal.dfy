/** Universal files: the table of programs, and putting changed programs back into one. */
module MachOUniversal {
  import opened Bytes
  import opened Ordering
  import opened MachOLayout
  import opened MachOPlan

  const MAX_COUNT: nat := 256

  datatype Entry = Entry(cputype: nat, cpusubtype: nat, offset: nat, size: nat, align: nat) {
    function End(): nat { offset + size }

    /** What the row says, which need not be what the program's header says. */
    function RowCpu(): Cpu { Cpu(cputype, cpusubtype) }
  }

  function EntrySize(wide: bool): nat {
    if wide then 32 else 20
  }

  function TableEnd(wide: bool, count: nat): nat {
    8 + count * EntrySize(wide)
  }

  /** Where an entry of the table is. */
  function RowAt(wide: bool, i: nat): nat {
    8 + i * EntrySize(wide)
  }

  function RowOf(row: Buffer, wide: bool): Entry
    requires |row| == EntrySize(wide)
  {
    if wide then Entry(B32(row, 0), B32(row, 4), B64(row, 8), B64(row, 16), B32(row, 24))
    else Entry(B32(row, 0), B32(row, 4), B32(row, 8), B32(row, 12), B32(row, 16))
  }

  lemma {:induction false} RowFits(wide: bool, count: nat, i: nat)
    requires i < count
    ensures RowAt(wide, i) + EntrySize(wide) == RowAt(wide, i + 1) <= TableEnd(wide, count)
  {
    Multiples(count, i + 1, EntrySize(wide));
  }

  /** The bytes of an entry. */
  function Row(file: Buffer, wide: bool, count: nat, i: nat): (row: Buffer)
    requires i < count && TableEnd(wide, count) <= |file|
    ensures |row| == EntrySize(wide)
  {
    RowFits(wide, count, i);
    file[RowAt(wide, i)..RowAt(wide, i + 1)]
  }

  function EntryAt(file: Buffer, wide: bool, count: nat, i: nat): Entry
    requires i < count && TableEnd(wide, count) <= |file|
  {
    RowOf(Row(file, wide, count, i), wide)
  }

  function Entries(file: Buffer, wide: bool, count: nat): (es: seq<Entry>)
    requires TableEnd(wide, count) <= |file|
    ensures |es| == count && forall i :: 0 <= i < count ==> es[i] == EntryAt(file, wide, count, i)
  {
    seq(count, i requires 0 <= i < count => EntryAt(file, wide, count, i))
  }

  // ── The order of the programs in the file ──────────────────

  function Indices(n: nat): (s: seq<nat>)
    ensures |s| == n && forall i :: 0 <= i < n ==> s[i] == i
  {
    seq(n, i => i)
  }

  /** By offset; programs at one offset in table order, as a stable sort leaves them. */
  function OffsetKey(es: seq<Entry>): nat -> seq<int> {
    (i: nat) => [if i < |es| then es[i].offset else 0, i]
  }

  function Order(es: seq<Entry>): (o: seq<nat>)
    ensures |o| == |es|
  {
    Sort(Indices(|es|), OffsetKey(es))
  }

  /** A sequence that lists every index once. */
  ghost predicate Lists(o: seq<nat>, n: nat) {
    && |o| == n && (forall j :: 0 <= j < n ==> o[j] < n)
    && (forall j, k :: 0 <= j < k < n ==> o[j] != o[k])
    && (forall i: nat :: i < n ==> i in o)
  }

  lemma {:induction false} KeysDiffer(es: seq<Entry>)
    ensures DistinctKeys(Indices(|es|), OffsetKey(es))
  {
    var s, key := Indices(|es|), OffsetKey(es);
    forall i, j | 0 <= i < j < |s| ensures key(s[i]) != key(s[j]) {
      assert key(s[i])[1] == i && key(s[j])[1] == j;
    }
  }

  lemma {:induction false} OrderLists(es: seq<Entry>)
    ensures Lists(Order(es), |es|) && Increasing(Order(es), OffsetKey(es))
  {
    hide OffsetKey;
    var s, key, o := Indices(|es|), OffsetKey(es), Order(es);
    KeysDiffer(es);
    SortIncreasing(s, key);
    forall j | 0 <= j < |o| ensures o[j] < |es| { InSeqInMultiset(o, s, o[j]); }
    forall i: nat | i < |es| ensures i in o {
      assert s[i] == i;
      InSeqInMultiset(s, o, i);
    }
    forall j, k | 0 <= j < k < |o| ensures o[j] != o[k] {
      assert Lex(key(o[j]), key(o[k])) < 0;
    }
  }

  lemma {:induction false} LexPair(a: int, b: int, c: int, d: int)
    ensures Lex([a, b], [c, d]) < 0 <==> a < c || (a == c && b < d)
  {
    assert [a, b][1..] == [b] && [c, d][1..] == [d];
  }

  /** An arrangement of the indices by strictly growing offsets is the order. */
  lemma {:induction false} OrderIs(es: seq<Entry>, o: seq<nat>)
    requires Lists(o, |es|) && forall j, k :: 0 <= j < k < |o| ==> es[o[j]].offset < es[o[k]].offset
    ensures Order(es) == o
  {
    var key := OffsetKey(es);
    forall j, k | 0 <= j < k < |o| ensures Lex(key(o[j]), key(o[k])) < 0 {
      LexPair(es[o[j]].offset, o[j], es[o[k]].offset, o[k]);
    }
    OrderLists(es);
    SameLists(Order(es), o, |es|);
    IncreasingUnique(Order(es), o, key);
  }

  /** Two listings of the same indices are arrangements of each other. */
  lemma {:induction false} SameLists(a: seq<nat>, b: seq<nat>, n: nat)
    requires Lists(a, n) && Lists(b, n)
    ensures multiset(a) == multiset(b)
  {
    forall x: nat ensures multiset(a)[x] == multiset(b)[x] {
      CountOnce(a, x);
      CountOnce(b, x);
      assert x in a <==> x < n;
      assert x in b <==> x < n;
    }
  }

  lemma {:induction false} CountOnce(s: seq<nat>, x: nat)
    requires forall j, k :: 0 <= j < k < |s| ==> s[j] != s[k]
    ensures multiset(s)[x] == if x in s then 1 else 0
  {
    if s != [] {
      CountOnce(s[1..], x);
      assert s == [s[0]] + s[1..];
    }
  }

  // ── Reading ────────────────────────────────────────────────

  predicate StartsThin(file: Buffer, e: Entry) {
    RangeFits(e.offset, e.size, |file|) && e.size >= 4 && Classify(file[e.offset..e.End()]).Thin()
  }

  predicate EntryFits(file: Buffer, e: Entry, tableEnd: nat) {
    RangeFits(e.offset, e.size, |file|) && tableEnd <= e.offset
  }

  /** In file order every program ends before the next begins. */
  predicate InOrder(es: seq<Entry>, o: seq<nat>) {
    forall k :: 1 <= k < |o| && o[k - 1] < |es| && o[k] < |es| ==> es[o[k - 1]].End() <= es[o[k]].offset
  }

  datatype Table = Table(wide: bool, entries: seq<Entry>)

  /** The table of a universal file, or a rejection. */
  function ParseTable(file: Buffer): (r: Option<Table>)
    ensures r.Some? ==> 1 <= |r.value.entries| <= MAX_COUNT && TableEnd(r.value.wide, |r.value.entries|) <= |file|
  {
    var kind := Classify(file);
    if (kind != Fat32 && kind != Fat64) || |file| < 8 then None
    else
      var wide, count := kind == Fat64, B32(file, 4);
      if count == 0 || count > MAX_COUNT || TableEnd(wide, count) > |file| then None
      else
        var es := Entries(file, wide, count);
        if !StartsThin(file, es[0]) || (exists i :: 0 <= i < count && !EntryFits(file, es[i], TableEnd(wide, count))) then None
        else if !InOrder(es, Order(es)) then None
        else Some(Table(wide, es))
  }

  /** The programs of the first n entries. */
  function Layouts(file: Buffer, es: seq<Entry>, n: nat): (r: Option<seq<Layout>>)
    requires n <= |es|
    ensures r.Some? ==> |r.value| == n
  {
    if n == 0 then Some([])
    else
      var before :- Layouts(file, es, n - 1);
      if !RangeFits(es[n - 1].offset, es[n - 1].size, |file|) then None
      else
        var l :- ParseSlice(file[es[n - 1].offset..es[n - 1].End()]);
        Some(before + [l])
  }

  datatype Container = Thin(layout: Layout) | Universal(table: Table, layouts: seq<Layout>)

  function ParseContainer(file: Buffer): Option<Container> {
    if Classify(file).Thin() then
      var l :- ParseSlice(file);
      Some(Thin(l))
    else
      var t :- ParseTable(file);
      var ls :- Layouts(file, t.entries, |t.entries|);
      Some(Universal(t, ls))
  }

  /** No two programs of an accepted file share a byte. */
  lemma {:induction false} ProgramsApart(file: Buffer, i: nat, j: nat)
    requires ParseTable(file).Some? && i < j < |ParseTable(file).value.entries|
    ensures var es := ParseTable(file).value.entries; es[i].End() <= es[j].offset || es[j].End() <= es[i].offset
  {
    hide OffsetKey, EntryAt;
    var es := ParseTable(file).value.entries;
    var o := Order(es);
    OrderLists(es);
    assert i in o && j in o;
    var a :| 0 <= a < |o| && o[a] == i;
    var b :| 0 <= b < |o| && o[b] == j;
    if a < b { ApartChain(es, o, a, b); } else { ApartChain(es, o, b, a); }
  }

  lemma {:induction false} ApartChain(es: seq<Entry>, o: seq<nat>, a: nat, b: nat)
    requires Lists(o, |es|) && InOrder(es, o) && a < b < |o|
    ensures es[o[a]].End() <= es[o[b]].offset
    decreases b
  {
    assert es[o[b - 1]].End() <= es[o[b]].offset;
    if a < b - 1 { ApartChain(es, o, a, b - 1); }
  }

  // ── Assembling ─────────────────────────────────────────────

  function Pow2(n: nat): (p: nat)
    ensures p > 0
  {
    if n == 0 then 1 else 2 * Pow2(n - 1)
  }

  /** Programs to be put back: the entries they replace, the order they stand in, and their bytes. */
  datatype Job = Job(entries: seq<Entry>, order: seq<nat>, slices: seq<Buffer>) {
    predicate Valid() {
      |entries| == |order| == |slices| > 0 && forall j :: 0 <= j < |order| ==> order[j] < |entries|
    }

    function EntryIn(j: nat): Entry
      requires Valid() && j < |order|
    {
      entries[order[j]]
    }

    function SliceIn(j: nat): Buffer
      requires Valid() && j < |order|
    {
      slices[order[j]]
    }

    /** Where the bytes end once the first j programs are placed. */
    function Cursor(j: nat): nat
      requires Valid() && j <= |order|
      decreases j, 0
    {
      if j == 0 then EntryIn(0).offset else Place(j - 1) + |SliceIn(j - 1)|
    }

    /** Where the j-th program goes: the next multiple of its alignment. */
    function Place(j: nat): nat
      requires Valid() && j < |order|
      decreases j, 1
    {
      AlignUp(Cursor(j), Pow2(EntryIn(j).align))
    }

    /** The end of the old programs. */
    function OldEnd(j: nat): nat
      requires Valid() && j <= |order|
    {
      if j == 0 then 0
      else if EntryIn(j - 1).End() > OldEnd(j - 1) then EntryIn(j - 1).End() else OldEnd(j - 1)
    }

    /** The new offsets by entry, once the first j programs are placed. */
    function Offsets(j: nat): (r: seq<nat>)
      requires Valid() && j <= |order|
      ensures |r| == |entries|
    {
      if j == 0 then seq(|entries|, _ => 0) else Offsets(j - 1)[order[j - 1] := Place(j - 1)]
    }

    predicate Placeable(wide: bool, j: nat)
      requires Valid() && j <= |order|
    {
      j == 0 || (Placeable(wide, j - 1) && EntryIn(j - 1).align < 32 && (wide || Cursor(j) < LIMIT32))
    }

    /** The file up to the end of the j-th program. */
    function Body(file: Buffer, j: nat): (b: Buffer)
      requires Valid() && j <= |order| && EntryIn(0).offset <= |file|
      ensures |b| == Cursor(j)
    {
      if j == 0 then file[..EntryIn(0).offset]
      else
        AlignedUp(Cursor(j - 1), Pow2(EntryIn(j - 1).align));
        Body(file, j - 1) + Zeros(Place(j - 1) - Cursor(j - 1)) + SliceIn(j - 1)
    }
  }

  /** The offset and length fields of an entry. */
  function Fields(wide: bool, offset: nat, size: nat): (b: Buffer)
    requires if wide then offset < LIMIT64 && size < LIMIT64 else offset < LIMIT32 && size < LIMIT32
    ensures |b| == if wide then 16 else 8
  {
    if wide then BE64(offset) + BE64(size) else BE32(offset) + BE32(size)
  }

  predicate FieldsFit(wide: bool, offset: nat, size: nat) {
    if wide then offset < LIMIT64 && size < LIMIT64 else offset < LIMIT32 && size < LIMIT32
  }

  /** An entry's bytes with its offset and length rewritten. */
  function NewRow(row: Buffer, wide: bool, offset: nat, size: nat): (r: Buffer)
    requires |row| == EntrySize(wide) && FieldsFit(wide, offset, size)
    ensures |r| == |row|
  {
    Put(row, 8, Fields(wide, offset, size))
  }

  /** The table with one entry's offset and length rewritten. */
  function WriteRow(s: Buffer, wide: bool, count: nat, k: nat, offset: nat, size: nat): (r: Buffer)
    requires k < count && TableEnd(wide, count) <= |s| && FieldsFit(wide, offset, size)
    ensures |r| == |s|
  {
    RowFits(wide, count, k);
    Put(s, RowAt(wide, k) + 8, Fields(wide, offset, size))
  }

  /** The first n entries of the table rewritten. */
  function Retabled(out: Buffer, wide: bool, offsets: seq<nat>, slices: seq<Buffer>, n: nat): (r: Buffer)
    requires n <= |offsets| == |slices| && TableEnd(wide, |slices|) <= |out|
    requires forall i :: 0 <= i < |slices| ==> FieldsFit(wide, offsets[i], |slices[i]|)
    ensures |r| == |out|
  {
    if n == 0 then out
    else WriteRow(Retabled(out, wide, offsets, slices, n - 1), wide, |slices|, n - 1, offsets[n - 1], |slices[n - 1]|)
  }

  function JobOf(t: Table, slices: seq<Buffer>): Job {
    Job(t.entries, Order(t.entries), slices)
  }
}
